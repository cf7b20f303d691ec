/**
 * What the session takes out of one `GetManagedObjects` snapshot: the
 * adapter, the devices, and the characteristics under a device path. Each
 * projection visits the catalog in path order, as the source's loops over
 * the `std::map` do.
 */
module ManagedObjects {
  import opened Wrappers
  import opened Order
  import opened Text
  import opened Bus

  datatype Error = NoAdapterFound | BusError | CharacteristicNotFound

  // ---------------------------------------------------------------- adapter

  /** The index of the first object at or after `from` that exposes `iface`. */
  function FirstExposing(objects: Catalog, iface: string, from: nat): (r: Option<nat>)
    requires from <= |objects|
    ensures r.Some? ==> from <= r.value < |objects| && Exposes(objects[r.value], iface)
    ensures r.Some? ==> forall j :: from <= j < r.value ==> !Exposes(objects[j], iface)
    ensures r.None? <==> forall j :: from <= j < |objects| ==> !Exposes(objects[j], iface)
    decreases |objects| - from
  {
    if from == |objects| then None
    else if Exposes(objects[from], iface) then Some(from)
    else FirstExposing(objects, iface, from + 1)
  }

  /** The adapter path `findAdapter` settles on, or the error it throws. */
  function AdapterOf(objects: Catalog): Result<string, Error>
  {
    match FirstExposing(objects, AdapterInterface, 0)
    case Some(i) => Success(objects[i].path)
    case None => Failure(NoAdapterFound)
  }

  /**
   * The adapter is the object exposing `org.bluez.Adapter1` whose path sorts
   * first among all such objects, and "No Bluetooth adapter found" is raised
   * exactly when no object exposes that interface.
   */
  lemma AdapterIsFirst(objects: Catalog)
    requires Sorted(objects)
    ensures AdapterOf(objects) == Failure(NoAdapterFound) <==>
            forall i :: 0 <= i < |objects| ==> !Exposes(objects[i], AdapterInterface)
    ensures AdapterOf(objects).Success? ==>
            exists i :: 0 <= i < |objects| && Exposes(objects[i], AdapterInterface) && objects[i].path == AdapterOf(objects).value
    ensures AdapterOf(objects).Success? ==>
            forall i :: 0 <= i < |objects| && Exposes(objects[i], AdapterInterface) && objects[i].path != AdapterOf(objects).value ==>
              Below(AdapterOf(objects).value, objects[i].path)
  {
  }

  // ---------------------------------------------------------------- devices

  /** The paths of the first `upto` objects that expose `org.bluez.Device1`. */
  function DevicePaths(objects: Catalog, upto: nat): set<string>
    requires upto <= |objects|
  {
    set i | 0 <= i < upto && Exposes(objects[i], DeviceInterface) :: objects[i].path
  }

  /**
   * The registry after the loop of `updateDeviceList` has visited the first
   * `upto` objects: each object exposing `org.bluez.Device1` writes its
   * Device1 properties under its path, over whatever was there.
   */
  function Absorb(devices: map<string, Props>, objects: Catalog, upto: nat): map<string, Props>
    requires upto <= |objects|
  {
    if upto == 0 then devices
    else
      var prior := Absorb(devices, objects, upto - 1);
      var o := objects[upto - 1];
      if Exposes(o, DeviceInterface) then prior[o.path := o.interfaces[DeviceInterface]] else prior
  }

  /**
   * Absorbing only adds or overwrites: the keys become the old keys plus the
   * device paths seen, and an entry whose path is not among them keeps its value.
   */
  lemma {:induction false} AbsorbKeeps(devices: map<string, Props>, objects: Catalog, upto: nat)
    requires upto <= |objects|
    ensures Absorb(devices, objects, upto).Keys == devices.Keys + DevicePaths(objects, upto)
    ensures forall p :: p in devices && p !in DevicePaths(objects, upto) ==>
              Absorb(devices, objects, upto)[p] == devices[p]
  {
    if upto > 0 {
      AbsorbKeeps(devices, objects, upto - 1);
      var o := objects[upto - 1];
      assert DevicePaths(objects, upto) ==
        DevicePaths(objects, upto - 1) + (if Exposes(o, DeviceInterface) then {o.path} else {});
    }
  }

  /**
   * In a catalog (paths distinct), every device object's entry holds exactly
   * its own Device1 property map.
   */
  lemma {:induction false} AbsorbHolds(devices: map<string, Props>, objects: Catalog, upto: nat, i: nat)
    requires Sorted(objects) && upto <= |objects|
    requires i < upto && Exposes(objects[i], DeviceInterface)
    ensures objects[i].path in Absorb(devices, objects, upto)
    ensures Absorb(devices, objects, upto)[objects[i].path] == objects[i].interfaces[DeviceInterface]
  {
    if i < upto - 1 {
      AbsorbHolds(devices, objects, upto - 1, i);
      assert Below(objects[i].path, objects[upto - 1].path);
      BelowIrreflexive(objects[i].path);
    }
  }

  /**
   * Clearing first and then absorbing a whole catalog leaves exactly the
   * catalog's device paths, each mapped to its Device1 property map: devices
   * that have left the catalog are gone.
   */
  lemma ScanIsExact(objects: Catalog)
    requires Sorted(objects)
    ensures Absorb(map[], objects, |objects|).Keys == DevicePaths(objects, |objects|)
    ensures forall i :: 0 <= i < |objects| && Exposes(objects[i], DeviceInterface) ==>
              Absorb(map[], objects, |objects|)[objects[i].path] == objects[i].interfaces[DeviceInterface]
  {
    AbsorbKeeps(map[], objects, |objects|);
    forall i | 0 <= i < |objects| && Exposes(objects[i], DeviceInterface)
      ensures Absorb(map[], objects, |objects|)[objects[i].path] == objects[i].interfaces[DeviceInterface]
    {
      AbsorbHolds(map[], objects, |objects|, i);
    }
  }

  // -------------------------------------------------------- characteristics

  /**
   * Object `o` is one of `devicePath`'s characteristics as `discoverServices`
   * decides it: its path contains `devicePath`, it exposes
   * `org.bluez.GattCharacteristic1`, and that interface has a `UUID` property.
   */
  predicate Resolves(o: Object, devicePath: string)
  {
    && Find(o.path, devicePath, 0).Some?
    && Exposes(o, GattCharInterface)
    && "UUID" in o.interfaces[GattCharInterface]
  }

  function UuidOf(o: Object, devicePath: string): string
    requires Resolves(o, devicePath)
    requires CharTyped(o.interfaces[GattCharInterface])
  {
    o.interfaces[GattCharInterface]["UUID"].str
  }

  /** Object `i` of `objects` is a characteristic of `devicePath` with UUID `u`. */
  predicate Supplies(objects: Catalog, devicePath: string, i: int, u: string)
    requires WellTyped(objects)
  {
    0 <= i < |objects| && Resolves(objects[i], devicePath) && UuidOf(objects[i], devicePath) == u
  }

  /** The last of the first `upto` objects that is a characteristic of `devicePath` with UUID `u`. */
  function LastSupplier(objects: Catalog, devicePath: string, u: string, upto: nat): (r: Option<nat>)
    requires WellTyped(objects) && upto <= |objects|
    ensures r.Some? ==> r.value < upto && Supplies(objects, devicePath, r.value, u)
    ensures r.Some? ==> forall j :: r.value < j < upto ==> !Supplies(objects, devicePath, j, u)
    ensures r.None? <==> forall j :: 0 <= j < upto ==> !Supplies(objects, devicePath, j, u)
  {
    if upto == 0 then None
    else if Supplies(objects, devicePath, upto - 1, u) then Some(upto - 1)
    else LastSupplier(objects, devicePath, u, upto - 1)
  }

  /**
   * The characteristic map `discoverServices` has built for `devicePath` once
   * its loop has visited the first `upto` objects: UUID to path, a later object
   * with the same UUID replacing an earlier one.
   */
  function Resolve(objects: Catalog, devicePath: string, upto: nat): map<string, string>
    requires WellTyped(objects) && upto <= |objects|
  {
    if upto == 0 then map[]
    else
      var prior := Resolve(objects, devicePath, upto - 1);
      var o := objects[upto - 1];
      if Resolves(o, devicePath) then prior[UuidOf(o, devicePath) := o.path] else prior
  }

  /** Each UUID in the partial map points at the last object so far that supplies it. */
  lemma {:induction false} ResolveLastWins(objects: Catalog, devicePath: string, upto: nat)
    requires WellTyped(objects) && upto <= |objects|
    ensures forall u :: u in Resolve(objects, devicePath, upto) <==> LastSupplier(objects, devicePath, u, upto).Some?
    ensures forall u :: u in Resolve(objects, devicePath, upto) ==>
              Resolve(objects, devicePath, upto)[u] == objects[LastSupplier(objects, devicePath, u, upto).value].path
  {
    forall u | u in Resolve(objects, devicePath, upto) || LastSupplier(objects, devicePath, u, upto).Some?
      ensures u in Resolve(objects, devicePath, upto) <==> LastSupplier(objects, devicePath, u, upto).Some?
      ensures u in Resolve(objects, devicePath, upto) ==>
                Resolve(objects, devicePath, upto)[u] == objects[LastSupplier(objects, devicePath, u, upto).value].path
    {
      ResolveAt(objects, devicePath, upto, u);
    }
  }

  lemma {:induction false} ResolveAt(objects: Catalog, devicePath: string, upto: nat, u: string)
    requires WellTyped(objects) && upto <= |objects|
    ensures u in Resolve(objects, devicePath, upto) <==> LastSupplier(objects, devicePath, u, upto).Some?
    ensures u in Resolve(objects, devicePath, upto) ==>
              Resolve(objects, devicePath, upto)[u] == objects[LastSupplier(objects, devicePath, u, upto).value].path
  {
    if upto > 0 {
      ResolveAt(objects, devicePath, upto - 1, u);
      if Supplies(objects, devicePath, upto - 1, u) {
        assert Resolve(objects, devicePath, upto)[u] == objects[upto - 1].path;
      }
    }
  }

  /** The characteristic map built from a whole catalog. */
  function Characteristics(objects: Catalog, devicePath: string): map<string, string>
    requires WellTyped(objects)
  {
    Resolve(objects, devicePath, |objects|)
  }

  /**
   * The map holds a UUID exactly when some object under `devicePath` exposes
   * a characteristic with that UUID, and then maps it to the path of the last
   * such object in catalog order.
   */
  lemma CharacteristicsExact(objects: Catalog, devicePath: string, u: string)
    requires WellTyped(objects)
    ensures u in Characteristics(objects, devicePath) <==> exists i :: Supplies(objects, devicePath, i, u)
    ensures u in Characteristics(objects, devicePath) ==>
              exists i :: Supplies(objects, devicePath, i, u) && Characteristics(objects, devicePath)[u] == objects[i].path &&
                forall j :: i < j < |objects| ==> !Supplies(objects, devicePath, j, u)
  {
    ResolveLastWins(objects, devicePath, |objects|);
    var last := LastSupplier(objects, devicePath, u, |objects|);
    if last.Some? {
      assert Supplies(objects, devicePath, last.value, u);
    }
  }

  /**
   * A characteristic object nested under the device path (its path is the
   * device path followed by more segments) that has a UUID lands in the map.
   */
  lemma NestedCharacteristicFound(objects: Catalog, devicePath: string, i: nat, rest: string)
    requires WellTyped(objects) && i < |objects|
    requires objects[i].path == devicePath + rest
    requires Exposes(objects[i], GattCharInterface) && "UUID" in objects[i].interfaces[GattCharInterface]
    ensures objects[i].interfaces[GattCharInterface]["UUID"].str in Characteristics(objects, devicePath)
  {
    NestedPathFound(devicePath, rest);
    assert Supplies(objects, devicePath, i, objects[i].interfaces[GattCharInterface]["UUID"].str);
    CharacteristicsExact(objects, devicePath, objects[i].interfaces[GattCharInterface]["UUID"].str);
  }

  /** Every path the map holds contains `devicePath`. */
  lemma CharacteristicsUnder(objects: Catalog, devicePath: string)
    requires WellTyped(objects)
    ensures forall u :: u in Characteristics(objects, devicePath) ==>
              Contains(Characteristics(objects, devicePath)[u], devicePath)
  {
    ResolveLastWins(objects, devicePath, |objects|);
    forall u | u in Characteristics(objects, devicePath)
      ensures Contains(Characteristics(objects, devicePath)[u], devicePath)
    {
      var i := LastSupplier(objects, devicePath, u, |objects|).value;
      FoundIffContains(objects[i].path, devicePath);
    }
  }
}
