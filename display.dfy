/**
 * The rules `listDevices` and `printHexData` apply when they render: the
 * defaults for missing properties, the service-UUID filter, the "at most
 * three UUIDs" rule, the order of the listing, and the hex dump.
 */
module Display {
  import opened Wrappers
  import opened Order
  import opened Text
  import opened Bus

  // ------------------------------------------------------- property defaults

  /** What the listing shows of one device. */
  datatype Description = Description(name: string, address: string, uuids: seq<string>)

  /** Name and Address fall back to "Unknown", UUIDs to the empty list. */
  function Describe(props: Props): Description
    requires DeviceTyped(props)
  {
    var name := if "Name" in props then props["Name"].str else "Unknown";
    var address := if "Address" in props then props["Address"].str else "Unknown";
    var uuids := if "UUIDs" in props then props["UUIDs"].strs else [];
    Description(name, address, uuids)
  }

  // ------------------------------------------------------------ UUID filter

  /** Some UUID in `uuids` has `filter` as a substring (the scan that stops at the first hit). */
  function AnyContains(uuids: seq<string>, filter: string): bool
  {
    if uuids == [] then false
    else if Find(uuids[0], filter, 0).Some? then true
    else AnyContains(uuids[1..], filter)
  }

  /** The scan succeeds exactly when one of the UUIDs contains the filter. */
  lemma {:induction false} AnyContainsMeans(uuids: seq<string>, filter: string)
    ensures AnyContains(uuids, filter) <==> exists i :: 0 <= i < |uuids| && Contains(uuids[i], filter)
  {
    if uuids != [] {
      FoundIffContains(uuids[0], filter);
      AnyContainsMeans(uuids[1..], filter);
      assert forall i :: 1 <= i < |uuids| ==> uuids[i] == uuids[1..][i - 1];
      if exists i :: 0 <= i < |uuids| && Contains(uuids[i], filter) {
        var i :| 0 <= i < |uuids| && Contains(uuids[i], filter);
        if i > 0 { assert Contains(uuids[1..][i - 1], filter); }
      }
    }
  }

  /** A device is listed when the filter is empty or one of its UUIDs contains it. */
  predicate Shown(props: Props, filter: string)
    requires DeviceTyped(props)
  {
    filter == "" || AnyContains(Describe(props).uuids, filter)
  }

  // ------------------------------------------------ at most three UUIDs shown

  function Min(a: int, b: int): int
  {
    if a < b then a else b
  }

  /** `xs` separated by `sep`. */
  function Join(xs: seq<string>, sep: string): string
  {
    if xs == [] then ""
    else if |xs| == 1 then xs[0]
    else xs[0] + sep + Join(xs[1..], sep)
  }

  /**
   * The text the source's bounded loop writes from position `i` on: each of
   * the first three UUIDs, followed by ", " when another one is written after it.
   */
  function ServicesFrom(uuids: seq<string>, i: nat): string
    decreases |uuids| - i
  {
    if i >= |uuids| || i >= 3 then ""
    else uuids[i] + (if i < |uuids| - 1 && i < 2 then ", " else "") + ServicesFrom(uuids, i + 1)
  }

  lemma {:induction false} ServicesFromJoin(uuids: seq<string>, i: nat)
    requires i <= Min(|uuids|, 3)
    ensures ServicesFrom(uuids, i) == Join(uuids[i..Min(|uuids|, 3)], ", ")
    decreases |uuids| - i
  {
    var k := Min(|uuids|, 3);
    if i < k {
      ServicesFromJoin(uuids, i + 1);
      assert uuids[i..k][1..] == uuids[i + 1..k];
    }
  }

  /** The text after "Services: ". */
  function ServicesText(uuids: seq<string>): string
  {
    ServicesFrom(uuids, 0) + (if |uuids| > 3 then "..." else "")
  }

  // ---------------------------------------------------------------- listing

  /** One entry of the listing; `services` is absent when the device has no UUIDs. */
  datatype DeviceLine = DeviceLine(path: string, name: string, address: string, services: Option<string>)

  function Line(path: string, props: Props): DeviceLine
    requires DeviceTyped(props)
  {
    var d := Describe(props);
    DeviceLine(path, d.name, d.address, if d.uuids == [] then None else Some(ServicesText(d.uuids)))
  }

  predicate AllTyped(devices: map<string, Props>)
  {
    forall p :: p in devices ==> DeviceTyped(devices[p])
  }

  predicate AllIn(ks: seq<string>, devices: map<string, Props>)
  {
    forall i :: 0 <= i < |ks| ==> ks[i] in devices
  }

  /**
   * A listed device shows its Name and Address, "Unknown" for either when
   * absent; it gets a services line only when it has UUIDs, and that line
   * holds the first three (all when fewer) joined by ", ", then "..." when
   * there are more than three.
   */
  lemma LineShows(path: string, props: Props)
    requires DeviceTyped(props)
    ensures Line(path, props).path == path
    ensures Line(path, props).name == if "Name" in props then props["Name"].str else "Unknown"
    ensures Line(path, props).address == if "Address" in props then props["Address"].str else "Unknown"
    ensures Line(path, props).services.None? <==> "UUIDs" !in props || props["UUIDs"].strs == []
    ensures Line(path, props).services.Some? ==>
              var uuids := props["UUIDs"].strs;
              Line(path, props).services.value ==
                Join(uuids[..Min(|uuids|, 3)], ", ") + (if |uuids| > 3 then "..." else "")
  {
    if "UUIDs" in props {
      ServicesFromJoin(props["UUIDs"].strs, 0);
    }
  }

  /** The entries `listDevices` has written after visiting the first `upto` keys of `ks`. */
  function Listing(ks: seq<string>, devices: map<string, Props>, filter: string, upto: nat): seq<DeviceLine>
    requires AllTyped(devices) && AllIn(ks, devices) && upto <= |ks|
  {
    if upto == 0 then []
    else
      var k := ks[upto - 1];
      Listing(ks, devices, filter, upto - 1) + (if Shown(devices[k], filter) then [Line(k, devices[k])] else [])
  }

  /** The paths of a listing, in order. */
  function Paths(lines: seq<DeviceLine>): seq<string>
  {
    if lines == [] then [] else Paths(lines[..|lines| - 1]) + [lines[|lines| - 1].path]
  }

  /** Each path sits where its line does. */
  lemma {:induction false} PathsAt(lines: seq<DeviceLine>)
    ensures |Paths(lines)| == |lines|
    ensures forall i :: 0 <= i < |lines| ==> Paths(lines)[i] == lines[i].path
  {
    if lines != [] {
      PathsAt(lines[..|lines| - 1]);
    }
  }

  /** The first `upto` keys of `ks` that pass the filter, in order. */
  function ShownKeys(ks: seq<string>, devices: map<string, Props>, filter: string, upto: nat): seq<string>
    requires AllTyped(devices) && AllIn(ks, devices) && upto <= |ks|
  {
    if upto == 0 then []
    else
      var k := ks[upto - 1];
      ShownKeys(ks, devices, filter, upto - 1) + (if Shown(devices[k], filter) then [k] else [])
  }

  /** The paths of a listing are the visited keys that pass the filter. */
  lemma {:induction false} ListingPaths(ks: seq<string>, devices: map<string, Props>, filter: string, upto: nat)
    requires AllTyped(devices) && AllIn(ks, devices) && upto <= |ks|
    ensures Paths(Listing(ks, devices, filter, upto)) == ShownKeys(ks, devices, filter, upto)
  {
    if upto > 0 {
      ListingPaths(ks, devices, filter, upto - 1);
      var prior := Listing(ks, devices, filter, upto - 1);
      var k := ks[upto - 1];
      if Shown(devices[k], filter) {
        assert Listing(ks, devices, filter, upto) == prior + [Line(k, devices[k])];
        PathsAppend(prior, Line(k, devices[k]));
      } else {
        assert Listing(ks, devices, filter, upto) == prior;
      }
    }
  }

  lemma PathsAppend(lines: seq<DeviceLine>, l: DeviceLine)
    ensures Paths(lines + [l]) == Paths(lines) + [l.path]
  {
  }

  /** A key is shown exactly when it is among the visited ones and passes the filter. */
  lemma {:induction false} ShownKeysHolds(ks: seq<string>, devices: map<string, Props>, filter: string,
                                          upto: nat, p: string)
    requires AllTyped(devices) && AllIn(ks, devices) && upto <= |ks|
    ensures p in ShownKeys(ks, devices, filter, upto) <==>
            (exists j :: 0 <= j < upto && ks[j] == p) && p in devices && Shown(devices[p], filter)
  {
    if upto > 0 {
      ShownKeysHolds(ks, devices, filter, upto - 1, p);
    }
  }

  /** Shown keys keep the order of the visited keys, so over sorted keys they are sorted. */
  lemma {:induction false} ShownKeysSorted(ks: seq<string>, devices: map<string, Props>, filter: string, upto: nat)
    requires AllTyped(devices) && AllIn(ks, devices) && upto <= |ks|
    requires StrictlySorted(ks)
    ensures StrictlySorted(ShownKeys(ks, devices, filter, upto))
  {
    if upto > 0 {
      ShownKeysSorted(ks, devices, filter, upto - 1);
      var prior := ShownKeys(ks, devices, filter, upto - 1);
      forall i | 0 <= i < |prior|
        ensures Below(prior[i], ks[upto - 1])
      {
        ShownKeysHolds(ks, devices, filter, upto - 1, prior[i]);
        assert prior[i] in prior;
        var j :| 0 <= j < upto - 1 && ks[j] == prior[i];
      }
    }
  }

  /** With an empty filter every visited key is shown, in the order visited. */
  lemma {:induction false} EmptyFilterShowsAll(ks: seq<string>, devices: map<string, Props>, upto: nat)
    requires AllTyped(devices) && AllIn(ks, devices) && upto <= |ks|
    ensures |ShownKeys(ks, devices, "", upto)| == upto
    ensures forall i :: 0 <= i < upto ==> ShownKeys(ks, devices, "", upto)[i] == ks[i]
  {
    if upto > 0 {
      EmptyFilterShowsAll(ks, devices, upto - 1);
    }
  }

  /** `a` is `b` with some entries left out. */
  predicate Subsequence<T(==)>(a: seq<T>, b: seq<T>)
    decreases |b|
  {
    if b == [] then a == []
    else
      || Subsequence(a, b[..|b| - 1])
      || (a != [] && a[|a| - 1] == b[|b| - 1] && Subsequence(a[..|a| - 1], b[..|b| - 1]))
  }

  /** A filtered listing is the unfiltered listing with some entries left out. */
  lemma {:induction false} FilteredIsSubsequence(ks: seq<string>, devices: map<string, Props>, filter: string,
                                                 upto: nat)
    requires AllTyped(devices) && AllIn(ks, devices) && upto <= |ks|
    ensures Subsequence(Listing(ks, devices, filter, upto), Listing(ks, devices, "", upto))
  {
    if upto > 0 {
      FilteredIsSubsequence(ks, devices, filter, upto - 1);
      var k := ks[upto - 1];
      var a := Listing(ks, devices, filter, upto);
      var b := Listing(ks, devices, "", upto);
      assert b[..|b| - 1] == Listing(ks, devices, "", upto - 1);
      if Shown(devices[k], filter) {
        assert a[..|a| - 1] == Listing(ks, devices, filter, upto - 1);
      } else {
        assert a == Listing(ks, devices, filter, upto - 1);
      }
    }
  }

  /** The keys of a registry in map order all belong to it. */
  lemma OrderedIn(devices: map<string, Props>)
    ensures AllIn(Ordered(devices.Keys), devices)
  {
    var ks := Ordered(devices.Keys);
    OrderedKeys(devices.Keys);
    forall i | 0 <= i < |ks| ensures ks[i] in devices {
      assert ks[i] in ks;
    }
  }

  /** What `listDevices` writes for a whole registry, visiting it in map order. */
  ghost function RegistryLines(devices: map<string, Props>, filter: string): seq<DeviceLine>
    requires AllTyped(devices)
  {
    OrderedIn(devices);
    Listing(Ordered(devices.Keys), devices, filter, |devices|)
  }

  /** A registry's listing names a device exactly when the device passes the filter. */
  lemma RegistryShows(devices: map<string, Props>, filter: string)
    requires AllTyped(devices)
    ensures forall p :: p in Paths(RegistryLines(devices, filter)) <==> p in devices && Shown(devices[p], filter)
  {
    var ks := Ordered(devices.Keys);
    OrderedIn(devices);
    OrderedKeys(devices.Keys);
    ListingPaths(ks, devices, filter, |ks|);
    forall p
      ensures p in ShownKeys(ks, devices, filter, |ks|) <==> p in devices && Shown(devices[p], filter)
    {
      ShownKeysHolds(ks, devices, filter, |ks|, p);
      if p in devices {
        assert p in ks;
      }
    }
  }

  /** A registry's listing is in strictly increasing path order. */
  lemma RegistrySorted(devices: map<string, Props>, filter: string)
    requires AllTyped(devices)
    ensures StrictlySorted(Paths(RegistryLines(devices, filter)))
  {
    var ks := Ordered(devices.Keys);
    OrderedIn(devices);
    ListingPaths(ks, devices, filter, |ks|);
    OrderedSorted(devices.Keys);
    ShownKeysSorted(ks, devices, filter, |ks|);
  }

  /** With an empty filter a registry's listing has every device, in map order. */
  lemma RegistryShowsAll(devices: map<string, Props>)
    requires AllTyped(devices)
    ensures |RegistryLines(devices, "")| == |devices|
    ensures forall i :: 0 <= i < |devices| ==> RegistryLines(devices, "")[i].path == Ordered(devices.Keys)[i]
  {
    var ks := Ordered(devices.Keys);
    OrderedIn(devices);
    ListingPaths(ks, devices, "", |ks|);
    PathsAt(RegistryLines(devices, ""));
    EmptyFilterShowsAll(ks, devices, |ks|);
  }

  /** Every entry of a listing is its key's device rendered by `Line`. */
  lemma {:induction false} ListingEntries(ks: seq<string>, devices: map<string, Props>, filter: string, upto: nat)
    requires AllTyped(devices) && AllIn(ks, devices) && upto <= |ks|
    ensures forall i :: 0 <= i < |Listing(ks, devices, filter, upto)| ==>
              var l := Listing(ks, devices, filter, upto)[i];
              l.path in devices && l == Line(l.path, devices[l.path])
  {
    if upto > 0 {
      ListingEntries(ks, devices, filter, upto - 1);
    }
  }

  /**
   * Each entry of a registry's listing is that device's line, so the
   * defaults and the three-UUID rule of `LineShows` apply to it.
   */
  lemma RegistryEntries(devices: map<string, Props>, filter: string)
    requires AllTyped(devices)
    ensures forall i :: 0 <= i < |RegistryLines(devices, filter)| ==>
              var l := RegistryLines(devices, filter)[i];
              l.path in devices && l == Line(l.path, devices[l.path])
  {
    var ks := Ordered(devices.Keys);
    OrderedIn(devices);
    ListingEntries(ks, devices, filter, |ks|);
  }

  /**
   * A registry's listing names a device exactly when the filter is empty or
   * one of the device's UUIDs has the filter as a substring.
   */
  lemma RegistryFilter(devices: map<string, Props>, filter: string)
    requires AllTyped(devices)
    ensures forall p :: p in Paths(RegistryLines(devices, filter)) <==>
              p in devices &&
              (filter == "" ||
               exists i :: 0 <= i < |Describe(devices[p]).uuids| && Contains(Describe(devices[p]).uuids[i], filter))
  {
    RegistryShows(devices, filter);
    forall p | p in devices {
      AnyContainsMeans(Describe(devices[p]).uuids, filter);
    }
  }

  // ---------------------------------------------------------------- hex dump

  /** The lower-case hexadecimal digit of `n`. */
  function HexDigit(n: int): (c: char)
    requires 0 <= n < 16
    ensures '0' <= c <= '9' || 'a' <= c <= 'f'
    ensures DigitValue(c) == n
  {
    if n < 10 then ('0' as int + n) as char else ('a' as int + n - 10) as char
  }

  /** The value of a lower-case hexadecimal digit. */
  function DigitValue(c: char): int
  {
    if '0' <= c <= '9' then c as int - '0' as int
    else if 'a' <= c <= 'f' then c as int - 'a' as int + 10
    else -1
  }

  /** One byte as `printHexData` writes it: two zero-padded lower-case digits and a space. */
  function HexByte(b: Byte): (t: string)
    ensures |t| == 3 && t[2] == ' '
    ensures ('0' <= t[0] <= '9' || 'a' <= t[0] <= 'f') && ('0' <= t[1] <= '9' || 'a' <= t[1] <= 'f')
    ensures DigitValue(t[0]) * 16 + DigitValue(t[1]) == b
  {
    [HexDigit(b / 16), HexDigit(b % 16), ' ']
  }

  /** The byte as a character when it is printable ASCII (32 to 126), otherwise '.'. */
  function Glyph(b: Byte): char
  {
    if 32 <= b < 127 then b as char else '.'
  }

  function HexPart(data: seq<Byte>): string
  {
    if data == [] then "" else HexByte(data[0]) + HexPart(data[1..])
  }

  function TextPart(data: seq<Byte>): string
  {
    if data == [] then "" else [Glyph(data[0])] + TextPart(data[1..])
  }

  lemma {:induction false} HexPartLength(data: seq<Byte>)
    ensures |HexPart(data)| == 3 * |data|
  {
    if data != [] { HexPartLength(data[1..]); }
  }

  lemma {:induction false} HexPartAt(data: seq<Byte>, i: nat)
    requires i < |data|
    ensures |HexPart(data)| == 3 * |data|
    ensures HexPart(data)[3 * i..3 * i + 3] == HexByte(data[i])
  {
    HexPartLength(data);
    if i > 0 {
      HexPartAt(data[1..], i - 1);
      assert HexPart(data)[3 * i..3 * i + 3] == HexPart(data[1..])[3 * (i - 1)..3 * (i - 1) + 3];
    }
  }

  lemma {:induction false} TextPartAt(data: seq<Byte>, i: nat)
    requires i < |data|
    ensures |TextPart(data)| == |data|
    ensures TextPart(data)[i] == Glyph(data[i])
  {
    if i == 0 {
      if |data| > 1 { TextPartAt(data[1..], 0); } else { assert data[1..] == []; }
    } else {
      TextPartAt(data[1..], i - 1);
    }
  }

  /** The text `printHexData` writes for `data`. */
  function HexDump(data: seq<Byte>): string
  {
    "0x" + HexPart(data) + " (" + TextPart(data) + ")"
  }

  /**
   * The dump is "0x", each byte as two lower-case hex digits and a space,
   * " (", each byte as its printable character or '.', and ")": 4n+5
   * characters for n bytes.
   */
  lemma HexDumpLayout(data: seq<Byte>)
    ensures |HexDump(data)| == 4 * |data| + 5
    ensures HexDump(data)[..2] == "0x"
    ensures forall i :: 0 <= i < |data| ==> HexDump(data)[2 + 3 * i..5 + 3 * i] == HexByte(data[i])
    ensures HexDump(data)[2 + 3 * |data|..4 + 3 * |data|] == " ("
    ensures forall i :: 0 <= i < |data| ==> HexDump(data)[4 + 3 * |data| + i] == Glyph(data[i])
    ensures HexDump(data)[|HexDump(data)| - 1] == ')'
  {
    var hex, text := HexPart(data), TextPart(data);
    var n := |data|;
    HexPartLength(data);
    var t := HexDump(data);
    if n == 0 {
      assert text == [];
    } else {
      TextPartAt(data, 0);
    }
    assert |text| == n;
    forall i | 0 <= i < n
      ensures t[2 + 3 * i..5 + 3 * i] == HexByte(data[i])
    {
      HexPartAt(data, i);
      assert t[2 + 3 * i..5 + 3 * i] == hex[3 * i..3 * i + 3];
    }
    forall i | 0 <= i < n
      ensures t[4 + 3 * n + i] == Glyph(data[i])
    {
      TextPartAt(data, i);
      assert t[4 + 3 * n + i] == text[i];
    }
    assert t[2 + 3 * n..4 + 3 * n] == " (";
  }
}
