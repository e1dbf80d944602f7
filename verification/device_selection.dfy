/** Physical-device and queue-family selection (`find_suitable_physical_device`).

    The driver is seen through four inputs: the result of enumerating the
    physical devices, and, per device, the result of enumerating its
    extensions, its queue families, and the surface-support query for one
    of its families. Selection is a first-match search: devices in
    enumeration order, then families in index order. */
module DeviceSelection {
  import opened Vk
  import CStrings

  const NO_SUITABLE_DEVICE := "No suitable physical devices found."

  /** The inner `find_map` over a device's extensions: for the first
      extension whose name array holds a NUL, whether that name equals
      `wanted`; nothing when no name holds a NUL. */
  function ExtensionProbe(exts: seq<ExtensionProperties>, wanted: seq<Byte>): (r: Option<bool>)
    ensures r.Some? <==> exists i :: 0 <= i < |exts| && 0 in exts[i].extensionName
    ensures r.Some? ==> exists i :: (0 <= i < |exts| && 0 in exts[i].extensionName
      && (forall j :: 0 <= j < i ==> 0 !in exts[j].extensionName)
      && r.value == (CStrings.UntilNul(exts[i].extensionName).value == wanted))
  {
    if exts == [] then None
    else
      match CStrings.UntilNul(exts[0].extensionName)
      case Some(name) =>
        Some(name == wanted)
      case None =>
        var r := ExtensionProbe(exts[1..], wanted);
        assert forall i :: 1 <= i < |exts| ==> exts[i] == exts[1..][i - 1];
        r
  }

  /** The extension gate as written: the probe's answer is discarded and
      only its presence is checked with `?`. */
  predicate PassesExtensionGate(exts: Fallible<seq<ExtensionProperties>>): (b: bool)
    ensures b <==> exts.Ok? && exists i :: 0 <= i < |exts.value| && 0 in exts.value[i].extensionName
  {
    exts.Ok? && ExtensionProbe(exts.value, AsciiBytes(DEVICE_EXTENSION_NAMES[0])).Some?
  }

  /** The `queue_family_supports_features` closure: the family advertises
      GRAPHICS and, only then, the surface-support query answers Ok(true). */
  predicate FamilySupportsFeatures(
    device: DeviceHandle, info: QueueFamilyProperties, index: U32,
    surfaceSupport: (DeviceHandle, U32) -> Fallible<bool>): (b: bool)
    ensures Graphics !in info.queueFlags ==> !b
    ensures surfaceSupport(device, index).Err? ==> !b
    ensures surfaceSupport(device, index) == Ok(false) ==> !b
    ensures Graphics in info.queueFlags && surfaceSupport(device, index) == Ok(true) ==> b
  {
    Graphics in info.queueFlags && surfaceSupport(device, index) == Ok(true)
  }

  /** The `find_map` over a device's queue families, from index `from` on. */
  function FirstSuitableFamily(
    device: DeviceHandle, families: QueueFamilyList,
    surfaceSupport: (DeviceHandle, U32) -> Fallible<bool>, from: nat): (r: Option<U32>)
    requires from <= |families|
    ensures r.Some? ==> (from <= r.value < |families|
      && FamilySupportsFeatures(device, families[r.value], r.value, surfaceSupport)
      && forall j :: from <= j < r.value ==> !FamilySupportsFeatures(device, families[j], j, surfaceSupport))
    ensures r.None? ==> forall j :: from <= j < |families| ==> !FamilySupportsFeatures(device, families[j], j, surfaceSupport)
    decreases |families| - from
  {
    if from == |families| then None
    else if FamilySupportsFeatures(device, families[from], from, surfaceSupport) then Some(from)
    else FirstSuitableFamily(device, families, surfaceSupport, from + 1)
  }

  /** A device qualifies when it passes the extension gate and one of its
      families supports graphics and presentation. */
  predicate DeviceQualifies(
    device: DeviceHandle,
    extensions: DeviceHandle -> Fallible<seq<ExtensionProperties>>,
    queueFamilies: DeviceHandle -> QueueFamilyList,
    surfaceSupport: (DeviceHandle, U32) -> Fallible<bool>)
  {
    && PassesExtensionGate(extensions(device))
    && exists j :: 0 <= j < |queueFamilies(device)|
         && FamilySupportsFeatures(device, queueFamilies(device)[j], j, surfaceSupport)
  }

  /** `(devices[k], j)` is the pair the first-match search must find: the
      k-th device is the first that qualifies and j its lowest suitable family. */
  predicate IsFirstMatch(
    devices: seq<DeviceHandle>, k: nat, j: nat,
    extensions: DeviceHandle -> Fallible<seq<ExtensionProperties>>,
    queueFamilies: DeviceHandle -> QueueFamilyList,
    surfaceSupport: (DeviceHandle, U32) -> Fallible<bool>)
  {
    && k < |devices|
    && PassesExtensionGate(extensions(devices[k]))
    && j < |queueFamilies(devices[k])|
    && FamilySupportsFeatures(devices[k], queueFamilies(devices[k])[j], j, surfaceSupport)
    && (forall i :: 0 <= i < j ==> !FamilySupportsFeatures(devices[k], queueFamilies(devices[k])[i], i, surfaceSupport))
    && (forall i :: 0 <= i < k ==> !DeviceQualifies(devices[i], extensions, queueFamilies, surfaceSupport))
  }

  /** The outer `find_map` over devices, from position `from` on. */
  function FirstSuitableDevice(
    devices: seq<DeviceHandle>,
    extensions: DeviceHandle -> Fallible<seq<ExtensionProperties>>,
    queueFamilies: DeviceHandle -> QueueFamilyList,
    surfaceSupport: (DeviceHandle, U32) -> Fallible<bool>, from: nat): (r: Option<(DeviceHandle, U32)>)
    requires from <= |devices|
    requires forall i :: 0 <= i < from ==> !DeviceQualifies(devices[i], extensions, queueFamilies, surfaceSupport)
    ensures r.Some? ==> exists k :: (from <= k < |devices| && r.value.0 == devices[k]
      && IsFirstMatch(devices, k, r.value.1, extensions, queueFamilies, surfaceSupport))
    ensures r.None? ==> forall i :: 0 <= i < |devices| ==> !DeviceQualifies(devices[i], extensions, queueFamilies, surfaceSupport)
    decreases |devices| - from
  {
    if from == |devices| then None
    else
      var device := devices[from];
      if !PassesExtensionGate(extensions(device)) then
        FirstSuitableDevice(devices, extensions, queueFamilies, surfaceSupport, from + 1)
      else
        match FirstSuitableFamily(device, queueFamilies(device), surfaceSupport, 0)
        case Some(index) =>
          assert IsFirstMatch(devices, from, index, extensions, queueFamilies, surfaceSupport);
          Some((device, index))
        case None =>
          FirstSuitableDevice(devices, extensions, queueFamilies, surfaceSupport, from + 1)
  }

  /** `find_suitable_physical_device`: a failed device enumeration is
      returned as is; otherwise the first match, or the "No suitable
      physical devices found." error. */
  function FindSuitablePhysicalDevice(
    devices: Fallible<seq<DeviceHandle>>,
    extensions: DeviceHandle -> Fallible<seq<ExtensionProperties>>,
    queueFamilies: DeviceHandle -> QueueFamilyList,
    surfaceSupport: (DeviceHandle, U32) -> Fallible<bool>): (r: Fallible<(DeviceHandle, U32)>)
    ensures devices.Err? ==> r == Err(devices.error)
    ensures devices.Ok? && r.Ok? ==> exists k :: (0 <= k < |devices.value| && r.value.0 == devices.value[k]
      && IsFirstMatch(devices.value, k, r.value.1, extensions, queueFamilies, surfaceSupport))
    ensures devices.Ok? && r.Err? ==> (r.error == Message(NO_SUITABLE_DEVICE)
      && forall i :: 0 <= i < |devices.value| ==> !DeviceQualifies(devices.value[i], extensions, queueFamilies, surfaceSupport))
  {
    match devices
    case Err(e) => Err(e)
    case Ok(ds) =>
      match FirstSuitableDevice(ds, extensions, queueFamilies, surfaceSupport, 0)
      case Some(pair) => Ok(pair)
      case None => Err(Message(NO_SUITABLE_DEVICE))
  }

  /** The first match is unique: the search is deterministic in what it
      returns, and any qualifying device list yields a selection. */
  lemma FirstMatchIsUnique(
    devices: seq<DeviceHandle>, k1: nat, j1: nat, k2: nat, j2: nat,
    extensions: DeviceHandle -> Fallible<seq<ExtensionProperties>>,
    queueFamilies: DeviceHandle -> QueueFamilyList,
    surfaceSupport: (DeviceHandle, U32) -> Fallible<bool>)
    requires IsFirstMatch(devices, k1, j1, extensions, queueFamilies, surfaceSupport)
    requires IsFirstMatch(devices, k2, j2, extensions, queueFamilies, surfaceSupport)
    ensures k1 == k2 && j1 == j2
  {
    if k1 < k2 {
      assert DeviceQualifies(devices[k1], extensions, queueFamilies, surfaceSupport);
    } else if k2 < k1 {
      assert DeviceQualifies(devices[k2], extensions, queueFamilies, surfaceSupport);
    }
  }

  /** Selection succeeds exactly when the enumeration succeeds and some
      enumerated device qualifies. */
  lemma SelectionSucceedsIffSomeDeviceQualifies(
    devices: Fallible<seq<DeviceHandle>>,
    extensions: DeviceHandle -> Fallible<seq<ExtensionProperties>>,
    queueFamilies: DeviceHandle -> QueueFamilyList,
    surfaceSupport: (DeviceHandle, U32) -> Fallible<bool>)
    ensures FindSuitablePhysicalDevice(devices, extensions, queueFamilies, surfaceSupport).Ok?
      <==> devices.Ok? && exists i :: (0 <= i < |devices.value|
             && DeviceQualifies(devices.value[i], extensions, queueFamilies, surfaceSupport))
  {
    var r := FindSuitablePhysicalDevice(devices, extensions, queueFamilies, surfaceSupport);
    if r.Ok? {
      var k :| 0 <= k < |devices.value| && r.value.0 == devices.value[k]
        && IsFirstMatch(devices.value, k, r.value.1, extensions, queueFamilies, surfaceSupport);
      assert DeviceQualifies(devices.value[k], extensions, queueFamilies, surfaceSupport);
    }
  }

  /** Only GRAPHICS families are ever asked about surface support: two
      support oracles that agree on every GRAPHICS family give the same
      selection. */
  lemma {:induction false} SupportOfNonGraphicsFamiliesIsIrrelevant(
    devices: Fallible<seq<DeviceHandle>>,
    extensions: DeviceHandle -> Fallible<seq<ExtensionProperties>>,
    queueFamilies: DeviceHandle -> QueueFamilyList,
    support1: (DeviceHandle, U32) -> Fallible<bool>,
    support2: (DeviceHandle, U32) -> Fallible<bool>)
    requires forall d: DeviceHandle, i: U32 :: (i < |queueFamilies(d)| && Graphics in queueFamilies(d)[i].queueFlags
      ==> support1(d, i) == support2(d, i))
    ensures FindSuitablePhysicalDevice(devices, extensions, queueFamilies, support1)
         == FindSuitablePhysicalDevice(devices, extensions, queueFamilies, support2)
  {
    if devices.Ok? {
      DevicesAgree(devices.value, extensions, queueFamilies, support1, support2, 0);
    }
  }

  lemma {:induction false} FamiliesAgree(
    device: DeviceHandle, families: QueueFamilyList,
    support1: (DeviceHandle, U32) -> Fallible<bool>,
    support2: (DeviceHandle, U32) -> Fallible<bool>, from: nat)
    requires from <= |families|
    requires forall i: U32 :: (i < |families| && Graphics in families[i].queueFlags
      ==> support1(device, i) == support2(device, i))
    ensures FirstSuitableFamily(device, families, support1, from) == FirstSuitableFamily(device, families, support2, from)
    decreases |families| - from
  {
    if from < |families| {
      assert FamilySupportsFeatures(device, families[from], from, support1)
        == FamilySupportsFeatures(device, families[from], from, support2);
      FamiliesAgree(device, families, support1, support2, from + 1);
    }
  }

  lemma {:induction false} DevicesAgree(
    devices: seq<DeviceHandle>,
    extensions: DeviceHandle -> Fallible<seq<ExtensionProperties>>,
    queueFamilies: DeviceHandle -> QueueFamilyList,
    support1: (DeviceHandle, U32) -> Fallible<bool>,
    support2: (DeviceHandle, U32) -> Fallible<bool>, from: nat)
    requires from <= |devices|
    requires forall d: DeviceHandle, i: U32 :: (i < |queueFamilies(d)| && Graphics in queueFamilies(d)[i].queueFlags
      ==> support1(d, i) == support2(d, i))
    requires forall i :: 0 <= i < from ==> !DeviceQualifies(devices[i], extensions, queueFamilies, support1)
    requires forall i :: 0 <= i < from ==> !DeviceQualifies(devices[i], extensions, queueFamilies, support2)
    ensures FirstSuitableDevice(devices, extensions, queueFamilies, support1, from)
         == FirstSuitableDevice(devices, extensions, queueFamilies, support2, from)
    decreases |devices| - from
  {
    if from < |devices| {
      var d := devices[from];
      FamiliesAgree(d, queueFamilies(d), support1, support2, 0);
      if !PassesExtensionGate(extensions(d)) || FirstSuitableFamily(d, queueFamilies(d), support1, 0).None? {
        assert !DeviceQualifies(d, extensions, queueFamilies, support1);
        assert !DeviceQualifies(d, extensions, queueFamilies, support2);
        DevicesAgree(devices, extensions, queueFamilies, support1, support2, from + 1);
      }
    }
  }

  /** The gate ignores which name the probe compares against: whether a
      device passes never depends on the required extension name. */
  lemma {:induction false} ProbeIgnoresWantedName(exts: seq<ExtensionProperties>, w1: seq<Byte>, w2: seq<Byte>)
    ensures ExtensionProbe(exts, w1).Some? == ExtensionProbe(exts, w2).Some?
  {
    if exts != [] && CStrings.UntilNul(exts[0].extensionName).None? {
      ProbeIgnoresWantedName(exts[1..], w1, w2);
    }
  }

  /** For a single NUL-terminated extension name, the probe computes the
      comparison with the first required name, and the gate passes whatever
      that comparison says. */
  lemma GateIgnoresNameComparison(name: seq<Byte>, specVersion: U32)
    requires 0 !in name
    ensures ExtensionProbe([ExtensionProperties(name + [0], specVersion)], AsciiBytes(DEVICE_EXTENSION_NAMES[0]))
         == Some(name == AsciiBytes(DEVICE_EXTENSION_NAMES[0]))
    ensures PassesExtensionGate(Ok([ExtensionProperties(name + [0], specVersion)]))
  {
    CStrings.UntilNulOfTerminated(name);
  }

  /** A device that lists only "VK_KHR_swapchain", and none of the
      ray-tracing extensions the renderer needs, still passes the gate. */
  lemma GateAcceptsDeviceMissingRequiredExtensions()
    ensures PassesExtensionGate(Ok([ExtensionProperties(AsciiBytes(DEVICE_EXTENSION_NAMES[4]) + [0], 70)]))
    ensures forall i :: 0 <= i < 4 ==> AsciiBytes(DEVICE_EXTENSION_NAMES[4]) != AsciiBytes(DEVICE_EXTENSION_NAMES[i])
  {
    var name := AsciiBytes(DEVICE_EXTENSION_NAMES[4]);
    assert forall i :: 0 <= i < |name| ==> name[i] != 0;
    GateIgnoresNameComparison(name, 70);
    assert name[8] == 'w' as int;
    assert AsciiBytes(DEVICE_EXTENSION_NAMES[0])[8] == 'a' as int;
    assert AsciiBytes(DEVICE_EXTENSION_NAMES[1])[8] == 'p' as int;
    assert AsciiBytes(DEVICE_EXTENSION_NAMES[2])[8] == 'c' as int;
    assert AsciiBytes(DEVICE_EXTENSION_NAMES[3])[8] == 'e' as int;
  }

  /** A device whose extension list is empty, or whose names all lack a
      NUL, is skipped even when it supports every required extension
      by name. */
  lemma GateRejectsExactlyUnterminatedLists(exts: seq<ExtensionProperties>)
    ensures !PassesExtensionGate(Ok(exts)) <==> forall i :: 0 <= i < |exts| ==> 0 !in exts[i].extensionName
    ensures !PassesExtensionGate(Ok([]))
  {
  }
}
