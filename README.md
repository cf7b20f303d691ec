# BluetoothManager session model

A Dafny model of the `BluetoothManager` class of a small BlueZ command-line
client (`src/main.cpp`). The class holds:

- the adapter path;
- a registry of devices (object path to `org.bluez.Device1` property map);
- the path of the connected device (empty when none);
- the characteristic map of that device (UUID to object path).

Its methods drive BlueZ over D-Bus. In the model every D-Bus round trip is an
input of the method that makes it:

- `Reply<T>` (`Returned(value)` or `Threw`) for a call that returns something;
- a `bool` for a call that only succeeds or throws.

A `GetManagedObjects` snapshot is a `Catalog`: a sequence of
`(path, interfaces)` objects, strictly sorted by path. A `std::map` hands out
its entries in key order, and both "the first adapter" and "the last object
wins" depend on that order. The maps the class iterates itself (the device
registry and the characteristic map) are visited through `Order.KeysInOrder`.
That method returns the keys in the strict lexicographic order `Order.Below`
of `std::string`'s `operator<`.

Modules:

- `Wrappers`: `Option` and `Result`.
- `Order`: string order; the key order of a map.
- `Text`: `std::string::find`; the substring relation.
- `Bus`: property values, catalogs, replies and interface names.
- `ManagedObjects`: what the session takes from a catalog (the adapter, the devices, the characteristics of a device).
- `Display`: the rules `listDevices` and `printHexData` follow when they render.
- `Manager`: the class `BluetoothManager` and the start of a session.

Session invariant: a non-empty characteristic map means a device is connected
(`|characteristics| > 0 ==> connectedDevice != ""`).

- `DisconnectFromDevice` and `ForgetDevice` preserve it.
- `ConnectToDevice` preserves it when the device path is non-empty.
- `DiscoverServices` preserves it while a device is connected. Called on its
  own with no device connected it can break it, as the public source method
  would; its caller `ConnectToDevice` records the connected device first.
- The remaining methods cannot touch either field: their `modifies` clauses leave them out.

## Model

| member | source | states |
|---|---|---|
| Manager.Open | src/main.cpp:33-37 | A session starts only when the catalog holds an adapter: the error is BusError without a catalog, NoAdapterFound without an adapter. Otherwise the new manager has the first adapter's path, an empty registry, no connected device and no characteristics. |
| Manager.BluetoothManager.constructor | src/main.cpp:16-21 | All four fields start empty, so the session invariant holds from the start. |
| Manager.BluetoothManager.FindAdapter | src/main.cpp:39-64 | The result is the adapter `AdapterOf` picks, or BusError when the catalog fetch throws. The adapter path changes only on success. |
| ManagedObjects.FirstExposing | src/main.cpp:51-54 | The index found is the first one at or after `from` whose object exposes the interface. None means no object from there on exposes it. |
| ManagedObjects.AdapterIsFirst | src/main.cpp:51-63 | Over a sorted catalog, NoAdapterFound is returned exactly when no object exposes `org.bluez.Adapter1`. Otherwise the adapter is such an object, and its path sorts before every other adapter's path. |
| Manager.BluetoothManager.ScanDevices | src/main.cpp:92-102 | The registry is cleared and then filled from the whole catalog. It stays empty when the fetch throws, and the status says which case happened. |
| Manager.BluetoothManager.UpdateDeviceList | src/main.cpp:104-123 | The new registry is the old one with every Device1 object of the catalog absorbed in path order. It is unchanged when the fetch throws. Property maps stay well-typed. |
| ManagedObjects.AbsorbKeeps | src/main.cpp:116-122 | Absorbing only adds or overwrites: the keys become the old keys plus the catalog's device paths. An entry at any other path keeps its value. |
| ManagedObjects.AbsorbHolds | src/main.cpp:116-122 | In a sorted catalog, every device object's path ends up mapped to exactly that object's Device1 property map. |
| ManagedObjects.ScanIsExact | src/main.cpp:94-122 | After a clear and a full absorb, the registry holds exactly the catalog's device paths, each with its own Device1 properties. |
| Manager.BluetoothManager.ListDevices | src/main.cpp:125-190 | The entries written are `RegistryLines`: the registry visited in key order, each device passed through the filter and rendered by `Line`. |
| Display.RegistryShows | src/main.cpp:136-169 | A device is listed exactly when it is in the registry and passes the filter. |
| Display.RegistrySorted | src/main.cpp:136 | The listed paths are strictly increasing. |
| Display.RegistryShowsAll | src/main.cpp:155-169 | With an empty filter every device is listed, in the registry's key order. |
| Display.RegistryEntries | src/main.cpp:136-187 | Every listed entry is the line of a registry device at that path, so the defaults and the three-UUID rule apply to each entry. |
| Display.RegistryFilter | src/main.cpp:155-169 | A device is listed exactly when it is in the registry and the filter is empty or one of its UUIDs has the filter as a substring. |
| Display.ListingEntries | src/main.cpp:136-187 | After any number of visited keys, each entry written is its key's device rendered as a line. |
| Display.FilteredIsSubsequence | src/main.cpp:155-169 | A filtered listing is the unfiltered listing with some entries left out. |
| Display.AnyContainsMeans | src/main.cpp:156-168 | The early-exit scan over the UUIDs succeeds exactly when some UUID has the filter as a case-sensitive substring. |
| Display.ShownKeysHolds | src/main.cpp:156-168 | A key is shown exactly when it was visited, is in the registry and passes the filter. |
| Display.ShownKeysSorted | src/main.cpp:136-168 | The filter keeps the visiting order, so sorted keys give a sorted listing. |
| Display.EmptyFilterShowsAll | src/main.cpp:156 | An empty filter skips the UUID test and shows every visited key, in visiting order. |
| Display.ListingPaths | src/main.cpp:136-173 | The paths of the listed entries are exactly the shown keys, in order. |
| Display.LineShows | src/main.cpp:138-187 | Name and Address come from the properties, or "Unknown" when absent. A services line exists exactly when there are UUIDs. It holds the first three UUIDs (all, when fewer) joined by ", ", then "..." when there are more than three. |
| Display.ServicesFromJoin | src/main.cpp:177-185 | The bounded loop writes the first min(n, 3) UUIDs with ", " between consecutive ones and none after the last. |
| Text.FindFirst | src/main.cpp:161 | `Find` returns the first occurrence at or after `from`. None (`npos`) means no occurrence from there on. |
| Text.FoundIffContains | src/main.cpp:335 | `find` reports a hit exactly when the pattern is a substring. |
| Text.NestedPathFound | src/main.cpp:335 | An object path that extends the device path passes the ownership test at position 0. |
| Order.Ordered | src/main.cpp:136 | The iteration order of a map is as long as the map. |
| Order.OrderedKeys | src/main.cpp:136 | The iteration order visits exactly the map's keys. |
| Order.OrderedSorted | src/main.cpp:136 | That order is strictly increasing. |
| Order.SortedUnique | src/main.cpp:365 | Two strictly sorted key sequences with the same keys are equal, so map order is unique. |
| Order.KeysInOrder | src/main.cpp:365 | Repeatedly taking the least remaining key yields exactly the map's iteration order. |
| Order.LeastExists | src/main.cpp:136 | Every non-empty key set has a least key, since the order is total. |
| Manager.BluetoothManager.ConnectToDevice | src/main.cpp:192-239 | The result is true exactly when Connect goes through, the re-read `Connected` is true and the catalog arrives. The device becomes the connected one exactly when Connect goes through and `Connected` reads true. The characteristic map is replaced only on full success. The session invariant is kept for a non-empty path. |
| Manager.BluetoothManager.DiscoverServices | src/main.cpp:313-352 | The characteristic map becomes `Characteristics(catalog, devicePath)`. It is untouched when the fetch throws. While a device is connected the session invariant is kept. |
| ManagedObjects.CharacteristicsExact | src/main.cpp:328-348 | A UUID is in the map exactly when some object under the device path exposes a characteristic with that UUID. It then maps to the path of the last such object in path order. |
| ManagedObjects.NestedCharacteristicFound | src/main.cpp:332-346 | A GattCharacteristic1 object with a UUID whose path extends the device path has its UUID in the map. |
| ManagedObjects.CharacteristicsUnder | src/main.cpp:332-336 | Every path in the map contains the device path. |
| ManagedObjects.ResolveLastWins | src/main.cpp:330-348 | At every step of the loop, each UUID held maps to the last object so far that supplies it. |
| ManagedObjects.ResolveAt | src/main.cpp:330-348 | The same, for one UUID. |
| ManagedObjects.LastSupplier | src/main.cpp:344-345 | The supplier found is the last among the first `upto` objects, and None means there is none. |
| Manager.BluetoothManager.DisconnectFromDevice | src/main.cpp:266-288 | With no connected device nothing changes. Otherwise the connected device and the characteristic map are cleared together, and only when Disconnect goes through. On error both are left as they were. The session invariant is kept. |
| Manager.BluetoothManager.ForgetDevice | src/main.cpp:290-311 | It disconnects only when the path is the connected device. Exactly that path is erased from the registry, and only when RemoveDevice goes through. The session invariant is kept. |
| Manager.BluetoothManager.PathOf | src/main.cpp:401-406 | The lookup succeeds exactly when the UUID is in the characteristic map, giving its path. Otherwise it fails with CharacteristicNotFound. |
| Manager.BluetoothManager.ListCharacteristics | src/main.cpp:354-397 | One entry per characteristic, in UUID key order, each holding its recorded path. |
| Manager.BluetoothManager.EnableNotify | src/main.cpp:399-439 | An unknown UUID sends nothing and fails. Otherwise StartNotify is sent to the recorded path. No state changes either way. |
| Manager.BluetoothManager.DisableNotify | src/main.cpp:441-463 | An unknown UUID sends nothing and fails. Otherwise StopNotify is sent to the recorded path. No state changes either way. |
| Manager.BluetoothManager.WriteCharacteristic | src/main.cpp:465-495 | An unknown UUID sends nothing and fails. Otherwise WriteValue is sent to the recorded path with the data and the option `type` = "request". No state changes either way. |
| Manager.BluetoothManager.ReadCharacteristic | src/main.cpp:497-528 | An unknown UUID sends nothing and fails. Otherwise ReadValue is sent with empty options, and the result is the value read or BusError. No state changes either way. |
| Display.HexDumpLayout | src/main.cpp:530-551 | The dump has 4n+5 characters for n bytes, laid out as: "0x"; each byte's hex pair and a space; " ("; each byte as itself when 32 to 126, else '.'; ")". |
| Display.HexByte | src/main.cpp:535-536 | Each byte is written as two lower-case hex digits whose value is the byte, then a space. |
| Display.HexDigit | src/main.cpp:535 | A digit is lower case and has the value it stands for. |
| Display.HexPartAt | src/main.cpp:533-537 | The i-th three-character group of the hex part is byte i's group. |
| Display.TextPartAt | src/main.cpp:539-549 | The i-th character of the text part is byte i's printable character or '.'. |
| Display.PathsAt | src/main.cpp:173 | Each listed path sits at its entry's position. |

## Left out

- D-Bus connection and proxy creation are not modelled. Each remote call is an input: its outcome, the value `Get`/`ReadValue` returns, and the `GetManagedObjects` catalog.
- `sdbus::Variant::get<T>` conversions are not modelled. Property values are assumed to carry the type BlueZ gives them (`Bus.WellTyped`, `BluetoothManager.Valid`). A mistyped variant, which throws in the source, has no counterpart.
- Failures of StartDiscovery/StopDiscovery are not inputs. A StartDiscovery failure is reported and a StopDiscovery failure is ignored; neither changes state.
- All `sleep_for` waits and the scan duration parameter are timing, not logic.
- `requestMTU` only logs and waits, so it is not modelled.
- The `Flags` fetch in `listCharacteristics` and its catch-all handler are not modelled: a remote read whose result is only printed.
- `processEvents` is not modelled, nor is the `PropertiesChanged` handler that `enableNotify` registers: asynchronous dispatch on another thread. The handler's formatting is `Display.HexDump`.
- Console messages are not modelled beyond the listing fields, the services text and the hex dump.
- The interactive menu, `printMenu`, `main` and the hex-input parsing with `std::stoi` are not modelled.
- The accessors `getConnectedDevice` and `getDevices` are not modelled: they only return a field.
- ScanDevices, UpdateDeviceList and FindAdapter report a throwing catalog fetch as a failed status. In the source the exception propagates to `main`, which ends the program.
- Manager.BluetoothManager.ConnectToDevice keeps the session invariant only for a non-empty device path. An empty path would leave characteristics recorded while no device counts as connected.
