/**
 * What the BlueZ daemon hands back over D-Bus: property values, the
 * interface maps of each managed object, and the catalog returned by
 * `GetManagedObjects`. Remote calls are not performed here; their outcome is
 * an input of the operation that makes them.
 */
module Bus {
  import opened Order

  type Byte = b: int | 0 <= b < 256

  /** The property value types this program reads out of an `sdbus::Variant`. */
  datatype Value =
    | Str(str: string)
    | Bool(flag: bool)
    | UInt(num: nat)
    | Strs(strs: seq<string>)
    | Bytes(bytes: seq<Byte>)

  /** Property name to value. */
  type Props = map<string, Value>

  /** Interface name to that interface's properties. */
  type Interfaces = map<string, Props>

  /** One managed object: its object path and the interfaces it exposes. */
  datatype Object = Object(path: string, interfaces: Interfaces)

  /**
   * A `GetManagedObjects` reply. The source stores it in a `std::map` keyed by
   * path, so it is read here as a sequence strictly sorted by path.
   */
  type Catalog = seq<Object>

  /** The outcome of a remote call that returns a value: the value, or an `sdbus::Error`. */
  datatype Reply<T> = Returned(value: T) | Threw

  const AdapterInterface: string := "org.bluez.Adapter1"
  const DeviceInterface: string := "org.bluez.Device1"
  const GattCharInterface: string := "org.bluez.GattCharacteristic1"

  predicate Exposes(o: Object, iface: string)
  {
    iface in o.interfaces
  }

  /** Catalog entries come in strictly increasing path order. */
  predicate Sorted(objects: Catalog)
  {
    forall i, j :: 0 <= i < j < |objects| ==> Below(objects[i].path, objects[j].path)
  }

  /** The Device1 properties the listing reads have the types BlueZ gives them. */
  predicate DeviceTyped(props: Props)
  {
    && ("Name" in props ==> props["Name"].Str?)
    && ("Address" in props ==> props["Address"].Str?)
    && ("UUIDs" in props ==> props["UUIDs"].Strs?)
  }

  /** The GattCharacteristic1 `UUID` property, when present, is a string. */
  predicate CharTyped(props: Props)
  {
    "UUID" in props ==> props["UUID"].Str?
  }

  predicate WellTyped(objects: Catalog)
  {
    forall i :: 0 <= i < |objects| ==>
      && (DeviceInterface in objects[i].interfaces ==> DeviceTyped(objects[i].interfaces[DeviceInterface]))
      && (GattCharInterface in objects[i].interfaces ==> CharTyped(objects[i].interfaces[GattCharInterface]))
  }

  /** A catalog as `GetManagedObjects` delivers it. */
  predicate IsCatalog(objects: Catalog)
  {
    Sorted(objects) && WellTyped(objects)
  }

  /** A fetch that, when it returns, returns a catalog. */
  predicate IsCatalogReply(reply: Reply<Catalog>)
  {
    reply.Returned? ==> IsCatalog(reply.value)
  }
}
