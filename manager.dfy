/**
 * The BLE session: the `BluetoothManager` object with its adapter path, its
 * device registry, the path of the connected device and the UUID-to-path map
 * of that device's characteristics. Every D-Bus round trip is an input of the
 * method that makes it: a `Reply` for calls that return a value, a `bool`
 * saying whether a call without a result went through or threw.
 */
module Manager {
  import opened Wrappers
  import opened Order
  import opened Text
  import opened Bus
  import opened ManagedObjects
  import opened Display

  /** A method call the session sends to a characteristic object. */
  datatype Request =
    | ReadValue(path: string, options: Props)
    | WriteValue(path: string, data: seq<Byte>, options: Props)
    | StartNotify(path: string)
    | StopNotify(path: string)

  /** What `disconnectFromDevice` reports. */
  datatype Disconnect = NoDeviceConnected | Disconnected | DisconnectFailed

  /** The options `writeCharacteristic` sends: an acknowledged write. */
  const WriteOptions: Props := map["type" := Str("request")]

  class BluetoothManager {
    var adapterPath: string
    var devices: map<string, Props>
    var connectedDevice: string
    var characteristics: map<string, string>

    /** The registry holds Device1 property maps with the types BlueZ gives them. */
    predicate Valid()
      reads this
    {
      AllTyped(devices)
    }

    /** A characteristic map is only held while a device is connected. */
    predicate SessionInvariant()
      reads this
    {
      |characteristics| > 0 ==> connectedDevice != ""
    }

    constructor ()
      ensures Valid() && SessionInvariant()
      ensures adapterPath == "" && devices == map[]
      ensures connectedDevice == "" && characteristics == map[]
    {
      adapterPath := "";
      devices := map[];
      connectedDevice := "";
      characteristics := map[];
    }

    /**
     * Takes the first object of the catalog exposing `org.bluez.Adapter1` as
     * the adapter; fails with NoAdapterFound when there is none, and with
     * BusError when the catalog cannot be fetched.
     */
    method FindAdapter(reply: Reply<Catalog>) returns (r: Result<string, Error>)
      modifies this`adapterPath
      ensures reply.Threw? ==> r == Failure(BusError)
      ensures reply.Returned? ==> r == AdapterOf(reply.value)
      ensures adapterPath == if r.Success? then r.value else old(adapterPath)
    {
      if reply.Threw? {
        return Failure(BusError);
      }
      var objects := reply.value;
      var i := 0;
      while i < |objects|
        invariant 0 <= i <= |objects|
        invariant FirstExposing(objects, AdapterInterface, 0) == FirstExposing(objects, AdapterInterface, i)
      {
        if AdapterInterface in objects[i].interfaces {
          adapterPath := objects[i].path;
          return Success(adapterPath);
        }
        i := i + 1;
      }
      return Failure(NoAdapterFound);
    }

    /**
     * Clears the registry and refills it from the catalog fetched after
     * discovery; the registry stays empty when that fetch fails. Failures of
     * the discovery start/stop calls are reported and otherwise ignored, so
     * they are not inputs here.
     */
    method ScanDevices(reply: Reply<Catalog>) returns (ok: bool)
      requires Valid() && IsCatalogReply(reply)
      modifies this`devices
      ensures Valid()
      ensures ok == reply.Returned?
      ensures devices == if ok then Absorb(map[], reply.value, |reply.value|) else map[]
    {
      devices := map[];
      ok := UpdateDeviceList(reply);
    }

    /**
     * Writes the Device1 properties of every catalog object exposing
     * `org.bluez.Device1` into the registry under its path; entries for other
     * paths stay as they were.
     */
    method UpdateDeviceList(reply: Reply<Catalog>) returns (ok: bool)
      requires Valid() && IsCatalogReply(reply)
      modifies this`devices
      ensures Valid()
      ensures ok == reply.Returned?
      ensures devices == if ok then Absorb(old(devices), reply.value, |reply.value|) else old(devices)
    {
      if reply.Threw? {
        return false;
      }
      var objects := reply.value;
      var i := 0;
      while i < |objects|
        invariant 0 <= i <= |objects|
        invariant devices == Absorb(old(devices), objects, i)
        invariant AllTyped(devices)
      {
        if DeviceInterface in objects[i].interfaces {
          devices := devices[objects[i].path := objects[i].interfaces[DeviceInterface]];
        }
        i := i + 1;
      }
      return true;
    }

    /**
     * The devices in path order, those without a UUID containing `filter`
     * left out unless `filter` is empty.
     */
    method ListDevices(filter: string) returns (lines: seq<DeviceLine>)
      requires Valid()
      ensures lines == RegistryLines(devices, filter)
    {
      var registry := devices;
      var ks := KeysInOrder(registry);
      OrderedIn(registry);
      assert AllIn(ks, registry) && |ks| == |registry|;
      ghost var expected := Listing(ks, registry, filter, |ks|);
      assert expected == RegistryLines(devices, filter);
      lines := [];
      var i := 0;
      while i < |ks|
        invariant 0 <= i <= |ks|
        invariant lines == Listing(ks, registry, filter, i)
      {
        var props := registry[ks[i]];
        if Shown(props, filter) {
          lines := lines + [Line(ks[i], props)];
        }
        i := i + 1;
      }
    }

    /**
     * Connects to `devicePath` and trusts only the re-read `Connected`
     * property: when it reads true the device becomes the connected one and
     * its characteristics are resolved from a fresh catalog. A failed
     * Connect or Get call, or a `Connected` of false, changes nothing. When
     * the catalog fetch fails the device stays recorded as connected, the
     * characteristic map is left as it was, and the result is false.
     */
    method ConnectToDevice(devicePath: string, connectSucceeds: bool, connectedProp: Reply<bool>,
                           objects: Reply<Catalog>) returns (ok: bool)
      requires IsCatalogReply(objects)
      modifies this`connectedDevice, this`characteristics
      ensures ok <==> connectSucceeds && connectedProp == Returned(true) && objects.Returned?
      ensures connectedDevice ==
                if connectSucceeds && connectedProp == Returned(true) then devicePath else old(connectedDevice)
      ensures characteristics ==
                if ok then Characteristics(objects.value, devicePath) else old(characteristics)
      ensures old(SessionInvariant()) && devicePath != "" ==> SessionInvariant()
    {
      if !connectSucceeds || connectedProp.Threw? || !connectedProp.value {
        return false;
      }
      connectedDevice := devicePath;
      ok := DiscoverServices(devicePath, objects);
    }

    /**
     * Replaces the characteristic map by the one resolved from a fresh
     * catalog for `devicePath`; leaves it untouched when the fetch fails.
     */
    method DiscoverServices(devicePath: string, objects: Reply<Catalog>) returns (ok: bool)
      requires IsCatalogReply(objects)
      modifies this`characteristics
      ensures ok == objects.Returned?
      ensures characteristics == if ok then Characteristics(objects.value, devicePath) else old(characteristics)
      ensures old(SessionInvariant()) && connectedDevice != "" ==> SessionInvariant()
    {
      if objects.Threw? {
        return false;
      }
      var catalog := objects.value;
      characteristics := map[];
      var i := 0;
      while i < |catalog|
        invariant 0 <= i <= |catalog|
        invariant characteristics == Resolve(catalog, devicePath, i)
      {
        var o := catalog[i];
        if Find(o.path, devicePath, 0).Some? && GattCharInterface in o.interfaces {
          var props := o.interfaces[GattCharInterface];
          if "UUID" in props {
            characteristics := characteristics[props["UUID"].str := o.path];
          }
        }
        i := i + 1;
      }
      return true;
    }

    /**
     * Does nothing when no device is connected. Otherwise clears the
     * connected device and the characteristic map together, and only when
     * the Disconnect call goes through.
     */
    method DisconnectFromDevice(disconnectSucceeds: bool) returns (r: Disconnect)
      modifies this`connectedDevice, this`characteristics
      ensures r == if old(connectedDevice) == "" then NoDeviceConnected
                   else if disconnectSucceeds then Disconnected
                   else DisconnectFailed
      ensures r == Disconnected ==> connectedDevice == "" && characteristics == map[]
      ensures r != Disconnected ==>
                connectedDevice == old(connectedDevice) && characteristics == old(characteristics)
      ensures old(SessionInvariant()) ==> SessionInvariant()
    {
      if connectedDevice == "" {
        return NoDeviceConnected;
      }
      if !disconnectSucceeds {
        return DisconnectFailed;
      }
      connectedDevice := "";
      characteristics := map[];
      return Disconnected;
    }

    /**
     * Disconnects first when `devicePath` is the connected device, then
     * removes the device from the adapter; only when RemoveDevice goes
     * through is `devicePath` dropped from the registry. A failed removal
     * does not undo the disconnect.
     */
    method ForgetDevice(devicePath: string, disconnectSucceeds: bool, removeSucceeds: bool)
      returns (forgotten: bool)
      requires Valid()
      modifies this`connectedDevice, this`characteristics, this`devices
      ensures Valid()
      ensures forgotten == removeSucceeds
      ensures devices == if removeSucceeds then old(devices) - {devicePath} else old(devices)
      ensures old(connectedDevice) == devicePath != "" && disconnectSucceeds ==>
                connectedDevice == "" && characteristics == map[]
      ensures !(old(connectedDevice) == devicePath != "" && disconnectSucceeds) ==>
                connectedDevice == old(connectedDevice) && characteristics == old(characteristics)
      ensures old(SessionInvariant()) ==> SessionInvariant()
    {
      if connectedDevice == devicePath {
        var _ := DisconnectFromDevice(disconnectSucceeds);
      }
      if !removeSucceeds {
        return false;
      }
      devices := devices - {devicePath};
      return true;
    }

    /** The object path recorded for `uuid`, or CharacteristicNotFound. */
    function PathOf(uuid: string): (r: Result<string, Error>)
      reads this
      ensures r.Success? <==> uuid in characteristics
      ensures r.Success? ==> r.value == characteristics[uuid]
      ensures r.Failure? ==> r.error == CharacteristicNotFound
    {
      if uuid in characteristics then Success(characteristics[uuid]) else Failure(CharacteristicNotFound)
    }

    /**
     * The characteristics in UUID order with their paths. The per-entry
     * `Flags` read is not part of this model.
     */
    method ListCharacteristics() returns (entries: seq<(string, string)>)
      ensures |entries| == |characteristics|
      ensures forall i :: 0 <= i < |entries| ==> entries[i].0 == Ordered(characteristics.Keys)[i]
      ensures forall i :: 0 <= i < |entries| ==>
                entries[i].0 in characteristics && entries[i].1 == characteristics[entries[i].0]
    {
      var table := characteristics;
      var ks := KeysInOrder(table);
      OrderedKeys(table.Keys);
      entries := [];
      var i := 0;
      while i < |ks|
        invariant 0 <= i <= |ks|
        invariant |entries| == i
        invariant forall j :: 0 <= j < i ==> ks[j] in table && entries[j] == (ks[j], table[ks[j]])
      {
        assert ks[i] in ks;
        entries := entries + [(ks[i], table[ks[i]])];
        i := i + 1;
      }
    }

    /**
     * Reads the value of the characteristic recorded for `uuid`. An unknown
     * UUID fails with CharacteristicNotFound before any request is sent.
     */
    method ReadCharacteristic(uuid: string, reply: Reply<seq<Byte>>)
      returns (request: Option<Request>, r: Result<seq<Byte>, Error>)
      ensures uuid !in characteristics ==> request == None && r == Failure(CharacteristicNotFound)
      ensures uuid in characteristics ==> request == Some(ReadValue(characteristics[uuid], map[]))
      ensures uuid in characteristics ==>
                r == if reply.Returned? then Success(reply.value) else Failure(BusError)
    {
      var path := PathOf(uuid);
      if path.Failure? {
        return None, Failure(CharacteristicNotFound);
      }
      request := Some(ReadValue(path.value, map[]));
      r := if reply.Returned? then Success(reply.value) else Failure(BusError);
    }

    /**
     * Writes `data` to the characteristic recorded for `uuid` as an
     * acknowledged write. An unknown UUID fails with CharacteristicNotFound
     * before any request is sent.
     */
    method WriteCharacteristic(uuid: string, data: seq<Byte>, writeSucceeds: bool)
      returns (request: Option<Request>, r: Result<(), Error>)
      ensures uuid !in characteristics ==> request == None && r == Failure(CharacteristicNotFound)
      ensures uuid in characteristics ==> request == Some(WriteValue(characteristics[uuid], data, WriteOptions))
      ensures uuid in characteristics ==> r == if writeSucceeds then Success(()) else Failure(BusError)
    {
      var path := PathOf(uuid);
      if path.Failure? {
        return None, Failure(CharacteristicNotFound);
      }
      request := Some(WriteValue(path.value, data, WriteOptions));
      r := if writeSucceeds then Success(()) else Failure(BusError);
    }

    /**
     * Starts notifications on the characteristic recorded for `uuid`. An
     * unknown UUID fails with CharacteristicNotFound before any request is sent.
     */
    method EnableNotify(uuid: string, startSucceeds: bool)
      returns (request: Option<Request>, r: Result<(), Error>)
      ensures uuid !in characteristics ==> request == None && r == Failure(CharacteristicNotFound)
      ensures uuid in characteristics ==> request == Some(StartNotify(characteristics[uuid]))
      ensures uuid in characteristics ==> r == if startSucceeds then Success(()) else Failure(BusError)
    {
      var path := PathOf(uuid);
      if path.Failure? {
        return None, Failure(CharacteristicNotFound);
      }
      request := Some(StartNotify(path.value));
      r := if startSucceeds then Success(()) else Failure(BusError);
    }

    /**
     * Stops notifications on the characteristic recorded for `uuid`. An
     * unknown UUID fails with CharacteristicNotFound before any request is sent.
     */
    method DisableNotify(uuid: string, stopSucceeds: bool)
      returns (request: Option<Request>, r: Result<(), Error>)
      ensures uuid !in characteristics ==> request == None && r == Failure(CharacteristicNotFound)
      ensures uuid in characteristics ==> request == Some(StopNotify(characteristics[uuid]))
      ensures uuid in characteristics ==> r == if stopSucceeds then Success(()) else Failure(BusError)
    {
      var path := PathOf(uuid);
      if path.Failure? {
        return None, Failure(CharacteristicNotFound);
      }
      request := Some(StopNotify(path.value));
      r := if stopSucceeds then Success(()) else Failure(BusError);
    }
  }

  /**
   * Starting a session: a fresh manager whose adapter is the one the catalog
   * offers first; no adapter, or no catalog, means no session.
   */
  method Open(reply: Reply<Catalog>) returns (r: Result<BluetoothManager, Error>)
    ensures reply.Threw? ==> r == Failure(BusError)
    ensures reply.Returned? && AdapterOf(reply.value).Failure? ==> r == Failure(NoAdapterFound)
    ensures reply.Returned? && AdapterOf(reply.value).Success? ==>
              && r.Success? && fresh(r.value)
              && r.value.adapterPath == AdapterOf(reply.value).value
              && r.value.Valid() && r.value.SessionInvariant()
              && r.value.devices == map[] && r.value.connectedDevice == "" && r.value.characteristics == map[]
  {
    var manager := new BluetoothManager();
    var found := manager.FindAdapter(reply);
    if found.Failure? {
      return Failure(found.error);
    }
    return Success(manager);
  }
}
