/** The element and model registry of the access layer
    (test/mesh/mesh_access.h:53-122, 142-192): elements in the order they were
    added, each owning its models in the order they were added, and each model
    owning a fixed array of subscription addresses. The C code links these
    together with intrusive lists; here an element holds a sequence of model
    references and the registry a sequence of element references. */
module Registry {
  import opened Wire
  import opened Wrappers
  import opened ModelIdentifiers
  import opened Subscription

  /** mesh_publication_model_t: plain data, no operation of the access layer
      reads or writes it. */
  datatype PublicationModel = PublicationModel(
    address: uint16,
    appkeyIndex: uint16,
    friendshipCredentialFlag: uint8,
    period: uint8,
    ttl: uint8,
    retransmit: uint8)

  /** mesh_operation_t without its handler: an opcode and the shortest
      payload the handler accepts. */
  datatype Operation = Operation(opcode: uint32, minimumLength: uint16)

  const MAX_NR_MESH_APPKEYS_PER_MODEL: nat := 3

  /** mesh_model_t */
  class MeshModel {
    const mid: uint16
    const modelIdentifier: uint32
    const operations: seq<Operation>
    const publicationModel: Option<PublicationModel>
    const appkeyIndices: array<uint16>
    const subscriptions: array<uint16>

    ghost predicate Valid()
      reads this, subscriptions
    {
      && appkeyIndices.Length == MAX_NR_MESH_APPKEYS_PER_MODEL
      && Wellformed(subscriptions[..])
    }

    /** The addresses the model is subscribed to. */
    ghost function Subscriptions(): (addresses: set<uint16>)
      reads this, subscriptions
      ensures MESH_ADDRESS_UNASSIGNED !in addresses
    {
      Addresses(subscriptions[..])
    }

    /** A model with no subscription. */
    constructor (mid: uint16, modelIdentifier: uint32, operations: seq<Operation>,
                 publicationModel: Option<PublicationModel>)
      ensures Valid() && fresh(subscriptions) && fresh(appkeyIndices)
      ensures this.mid == mid && this.modelIdentifier == modelIdentifier
      ensures this.operations == operations && this.publicationModel == publicationModel
      ensures Subscriptions() == {}
    {
      this.mid := mid;
      this.modelIdentifier := modelIdentifier;
      this.operations := operations;
      this.publicationModel := publicationModel;
      appkeyIndices := new uint16[MAX_NR_MESH_APPKEYS_PER_MODEL];
      subscriptions := new uint16[MAX_NR_MESH_SUBSCRIPTION_PER_MODEL](_ => MESH_ADDRESS_UNASSIGNED);
    }

    /** mesh_model_contains_subscription */
    method ContainsSubscription(address: uint16) returns (found: bool)
      requires Valid()
      ensures found <==> address in Subscriptions()
    {
      if address == MESH_ADDRESS_UNASSIGNED {
        return false;
      }
      found := false;
      var i := 0;
      while i < subscriptions.Length
        invariant 0 <= i <= subscriptions.Length
        invariant found <==> address in subscriptions[..i]
      {
        if subscriptions[i] == address {
          found := true;
        }
        i := i + 1;
      }
      assert subscriptions[..i] == subscriptions[..];
    }

    /** mesh_model_add_subscription */
    method AddSubscription(address: uint16) returns (status: uint8)
      requires Valid()
      modifies subscriptions
      ensures Valid()
      ensures Update(subscriptions[..], status) == Add(old(subscriptions[..]), address)
    {
      if address == MESH_ADDRESS_UNASSIGNED {
        return MESH_FOUNDATION_STATUS_INVALID_ADDRESS;
      }
      var present := ContainsSubscription(address);
      if present {
        return MESH_FOUNDATION_STATUS_SUCCESS;
      }
      var i := 0;
      while i < subscriptions.Length
        invariant 0 <= i <= subscriptions.Length
        invariant MESH_ADDRESS_UNASSIGNED !in subscriptions[..i]
        invariant subscriptions[..] == old(subscriptions[..])
      {
        if subscriptions[i] == MESH_ADDRESS_UNASSIGNED {
          assert FirstIndex(subscriptions[..], MESH_ADDRESS_UNASSIGNED) == i;
          subscriptions[i] := address;
          return MESH_FOUNDATION_STATUS_SUCCESS;
        }
        i := i + 1;
      }
      assert subscriptions[..i] == subscriptions[..];
      status := MESH_FOUNDATION_STATUS_INSUFFICIENT_RESOURCES;
    }

    /** mesh_model_delete_subscription */
    method DeleteSubscription(address: uint16)
      requires Valid()
      modifies subscriptions
      ensures Valid()
      ensures subscriptions[..] == Delete(old(subscriptions[..]), address)
    {
      var i := 0;
      while i < subscriptions.Length
        invariant 0 <= i <= subscriptions.Length
        invariant forall k :: 0 <= k < i ==> subscriptions[k] == Delete(old(subscriptions[..]), address)[k]
        invariant forall k :: i <= k < subscriptions.Length ==> subscriptions[k] == old(subscriptions[k])
      {
        if subscriptions[i] == address {
          subscriptions[i] := MESH_ADDRESS_UNASSIGNED;
        }
        i := i + 1;
      }
      assert subscriptions[..] == Delete(old(subscriptions[..]), address);
    }

    /** mesh_model_delete_all_subscriptions */
    method DeleteAllSubscriptions()
      requires Valid()
      modifies subscriptions
      ensures Valid()
      ensures subscriptions[..] == DeleteAll(old(subscriptions[..]))
    {
      var i := 0;
      while i < subscriptions.Length
        invariant 0 <= i <= subscriptions.Length
        invariant forall k :: 0 <= k < i ==> subscriptions[k] == MESH_ADDRESS_UNASSIGNED
      {
        subscriptions[i] := MESH_ADDRESS_UNASSIGNED;
        i := i + 1;
      }
      assert subscriptions[..] == DeleteAll(old(subscriptions[..]));
    }

    /** mesh_model_overwrite_subscription */
    method OverwriteSubscription(address: uint16) returns (status: uint8)
      requires Valid()
      modifies subscriptions
      ensures Valid()
      ensures Update(subscriptions[..], status) == Overwrite(old(subscriptions[..]), address)
    {
      FullIffThreeAddresses(subscriptions[..]);
      var present := ContainsSubscription(address);
      if address == MESH_ADDRESS_UNASSIGNED || present || MESH_ADDRESS_UNASSIGNED in subscriptions[..] {
        status := AddSubscription(address);
      } else {
        subscriptions[0] := address;
        status := MESH_FOUNDATION_STATUS_SUCCESS;
      }
    }
  }

  /** The number of models whose identifier names the Bluetooth SIG. */
  function SigCount(models: seq<MeshModel>): (n: nat)
    ensures n <= |models|
  {
    if models == [] then 0
    else SigCount(models[..|models| - 1]) + (if IsBluetoothSig(models[|models| - 1].modelIdentifier) then 1 else 0)
  }

  /** A 16-bit counter of n, bumped with wrap-around, counts n + 1. */
  lemma CountStep(n: nat, counter: uint16)
    requires counter == n % 0x1_0000
    ensures (counter + 1) % 0x1_0000 == (n + 1) % 0x1_0000
  {
  }

  /** mesh_element_t */
  class Element {
    var unicastAddress: uint16
    var loc: uint16
    var models: seq<MeshModel>
    var modelsCountSig: uint16
    var modelsCountVendor: uint16

    /** The counters count the SIG and the vendor models, in 16 bits. */
    ghost predicate Valid()
      reads this
    {
      && modelsCountSig == SigCount(models) % 0x1_0000
      && modelsCountVendor == (|models| - SigCount(models)) % 0x1_0000
    }

    constructor (unicastAddress: uint16, loc: uint16)
      ensures Valid()
      ensures this.unicastAddress == unicastAddress && this.loc == loc && models == []
    {
      this.unicastAddress := unicastAddress;
      this.loc := loc;
      models := [];
      modelsCountSig := 0;
      modelsCountVendor := 0;
    }

    /** mesh_element_add_model */
    method AddModel(model: MeshModel)
      requires Valid()
      modifies this
      ensures Valid()
      ensures models == old(models) + [model]
      ensures unicastAddress == old(unicastAddress) && loc == old(loc)
      ensures IsBluetoothSig(model.modelIdentifier) ==>
                modelsCountSig == (old(modelsCountSig) + 1) % 0x1_0000 && modelsCountVendor == old(modelsCountVendor)
      ensures !IsBluetoothSig(model.modelIdentifier) ==>
                modelsCountVendor == (old(modelsCountVendor) + 1) % 0x1_0000 && modelsCountSig == old(modelsCountSig)
    {
      var sig := IsBluetoothSig(model.modelIdentifier);
      models := models + [model];
      assert models[..|models| - 1] == old(models);
      assert SigCount(models) == SigCount(old(models)) + (if sig then 1 else 0);
      if sig {
        CountStep(SigCount(old(models)), modelsCountSig);
        modelsCountSig := (modelsCountSig + 1) % 0x1_0000;
      } else {
        CountStep(|old(models)| - SigCount(old(models)), modelsCountVendor);
        modelsCountVendor := (modelsCountVendor + 1) % 0x1_0000;
      }
    }

    /** mesh_model_get_by_identifier: the first model with that identifier. */
    method GetModelByIdentifier(modelIdentifier: uint32) returns (model: MeshModel?)
      ensures model == null <==> forall i :: 0 <= i < |models| ==> models[i].modelIdentifier != modelIdentifier
      ensures model != null ==>
                exists i :: (0 <= i < |models| && models[i] == model &&
                             model.modelIdentifier == modelIdentifier &&
                             forall j :: 0 <= j < i ==> models[j].modelIdentifier != modelIdentifier)
    {
      var i := 0;
      while i < |models|
        invariant 0 <= i <= |models|
        invariant forall j :: 0 <= j < i ==> models[j].modelIdentifier != modelIdentifier
      {
        if models[i].modelIdentifier == modelIdentifier {
          return models[i];
        }
        i := i + 1;
      }
      model := null;
    }

    /** mesh_model_iterator_init */
    method InitModelIterator(cursor: ListIterator<MeshModel>)
      modifies cursor
      ensures cursor.Valid() && cursor.items == models && cursor.Visited() == []
    {
      cursor.Init(models);
    }
  }

  /** mesh_element_iterator_t and mesh_model_iterator_t: a forward cursor over
      the items of a list as they were at initialisation. */
  class ListIterator<T> {
    var items: seq<T>
    var position: nat

    ghost predicate Valid()
      reads this
    {
      position <= |items|
    }

    /** The items returned so far. */
    ghost function Visited(): seq<T>
      reads this
      requires Valid()
    {
      items[..position]
    }

    constructor ()
      ensures Valid() && items == []
    {
      items := [];
      position := 0;
    }

    method Init(items: seq<T>)
      modifies this
      ensures Valid() && this.items == items && Visited() == []
    {
      this.items := items;
      position := 0;
    }

    /** mesh_element_iterator_has_next, mesh_model_iterator_has_next */
    function HasNext(): (b: bool)
      reads this
      requires Valid()
      ensures b <==> |Visited()| < |items|
    {
      position < |items|
    }

    /** mesh_element_iterator_next, mesh_model_iterator_next */
    method Next() returns (item: T)
      requires Valid() && HasNext()
      modifies this
      ensures Valid() && items == old(items)
      ensures Visited() == old(Visited()) + [item]
    {
      item := items[position];
      position := position + 1;
    }
  }

  /** The process-wide list of elements, the first of which is the node's
      primary element. */
  class ElementRegistry {
    const primary: Element
    var elements: seq<Element>

    ghost predicate Valid()
      reads this
    {
      |elements| > 0 && elements[0] == primary
    }

    /** A registry holding a fresh primary element with the unassigned
        address and location 0. */
    constructor ()
      ensures Valid() && fresh(primary) && elements == [primary]
      ensures primary.Valid() && primary.models == []
    {
      primary := new Element(MESH_ADDRESS_UNASSIGNED, 0);
      new;
      elements := [primary];
    }

    /** mesh_primary_element */
    function PrimaryElement(): (element: Element)
      reads this
      requires Valid()
      ensures element == elements[0]
    {
      primary
    }

    /** mesh_access_set_primary_element_address */
    method SetPrimaryElementAddress(unicastAddress: uint16)
      modifies primary
      ensures primary.unicastAddress == unicastAddress
      ensures primary.loc == old(primary.loc) && primary.models == old(primary.models)
      ensures primary.modelsCountSig == old(primary.modelsCountSig)
      ensures primary.modelsCountVendor == old(primary.modelsCountVendor)
    {
      primary.unicastAddress := unicastAddress;
    }

    /** mesh_access_set_primary_element_location */
    method SetPrimaryElementLocation(location: uint16)
      modifies primary
      ensures primary.loc == location
      ensures primary.unicastAddress == old(primary.unicastAddress) && primary.models == old(primary.models)
      ensures primary.modelsCountSig == old(primary.modelsCountSig)
      ensures primary.modelsCountVendor == old(primary.modelsCountVendor)
    {
      primary.loc := location;
    }

    /** mesh_element_add */
    method AddElement(element: Element)
      requires Valid()
      modifies this
      ensures Valid()
      ensures elements == old(elements) + [element]
    {
      elements := elements + [element];
    }

    /** mesh_element_for_unicast_address: the first element with that address. */
    method ForUnicastAddress(unicastAddress: uint16) returns (element: Element?)
      ensures element == null <==> forall i :: 0 <= i < |elements| ==> elements[i].unicastAddress != unicastAddress
      ensures element != null ==>
                exists i :: (0 <= i < |elements| && elements[i] == element &&
                             element.unicastAddress == unicastAddress &&
                             forall j :: 0 <= j < i ==> elements[j].unicastAddress != unicastAddress)
    {
      var i := 0;
      while i < |elements|
        invariant 0 <= i <= |elements|
        invariant forall j :: 0 <= j < i ==> elements[j].unicastAddress != unicastAddress
      {
        if elements[i].unicastAddress == unicastAddress {
          return elements[i];
        }
        i := i + 1;
      }
      element := null;
    }

    /** mesh_element_iterator_init */
    method InitElementIterator(cursor: ListIterator<Element>)
      modifies cursor
      ensures cursor.Valid() && cursor.items == elements && cursor.Visited() == []
    {
      cursor.Init(elements);
    }
  }

  /** Walking the element cursor to its end visits every element once, in
      the order the elements were added. */
  method VisitElements(registry: ElementRegistry) returns (visited: seq<Element>)
    ensures visited == registry.elements
  {
    var cursor := new ListIterator<Element>();
    registry.InitElementIterator(cursor);
    visited := [];
    while cursor.HasNext()
      invariant cursor.Valid() && cursor.items == registry.elements
      invariant visited == cursor.Visited()
      decreases |cursor.items| - cursor.position
    {
      var element := cursor.Next();
      visited := visited + [element];
    }
    assert cursor.Visited() == cursor.items;
  }

  /** Walking the model cursor of an element to its end visits every model
      of the element once, in the order the models were added. */
  method VisitModels(element: Element) returns (visited: seq<MeshModel>)
    ensures visited == element.models
  {
    var cursor := new ListIterator<MeshModel>();
    element.InitModelIterator(cursor);
    visited := [];
    while cursor.HasNext()
      invariant cursor.Valid() && cursor.items == element.models
      invariant visited == cursor.Visited()
      decreases |cursor.items| - cursor.position
    {
      var model := cursor.Next();
      visited := visited + [model];
    }
    assert cursor.Visited() == cursor.items;
  }
}
