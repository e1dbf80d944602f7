/** The context factory (`create_instance`) and the logical-device builder
    (`create_queue_and_logical_device`). Both fill in a create-info and hand
    it to the driver; the driver call is a parameter. */
module Instance {
  import opened Vk

  /** The application info `create_instance` always sends. */
  const APPLICATION_NAME := "VoxelVoxel"
  const ENGINE_NAME := "No Engine"
  const API_VERSION := ApiVersion(0, 1, 2, 162)

  /** `info` is the instance create-info `create_instance` sends when the
      window requires the surface extensions `required`. */
  ghost predicate IsInstanceRequest(info: InstanceCreateInfo, required: seq<string>) {
    && info.applicationName == APPLICATION_NAME
    && info.applicationVersion == 0
    && info.engineName == ENGINE_NAME
    && info.apiVersion == API_VERSION
    && info.enabledLayerNames == [VALIDATION_LAYER]
    && info.enabledExtensionNames == required + [DEBUG_UTILS_EXTENSION]
  }

  /** `create_instance`. The window's display handle is asked for first (its
      error is returned); the window's required surface extensions are then
      enumerated and unwrapped (an error there aborts the process); the
      debug-utils extension is appended, the validation layer enabled, and
      the driver's answer to that request is returned. */
  method CreateInstance(
    displayHandle: Fallible<DisplayHandle>,
    requiredExtensions: DisplayHandle -> Fallible<seq<string>>,
    createInstance: InstanceCreateInfo -> Fallible<InstanceHandle>)
    returns (r: Fallible<InstanceHandle>)
    ensures displayHandle.Err? ==> r == Err(WindowHandle)
    ensures displayHandle.Ok? && requiredExtensions(displayHandle.value).Err? ==> r == Err(Panicked)
    ensures displayHandle.Ok? && requiredExtensions(displayHandle.value).Ok? ==>
      exists info :: IsInstanceRequest(info, requiredExtensions(displayHandle.value).value) && r == createInstance(info)
  {
    if displayHandle.Err? { return Err(WindowHandle); }
    var required := requiredExtensions(displayHandle.value);
    if required.Err? { return Err(Panicked); }

    var extensionNames := required.value;
    extensionNames := extensionNames + [DEBUG_UTILS_EXTENSION];

    var info := InstanceCreateInfo(
      applicationName := APPLICATION_NAME,
      applicationVersion := 0,
      engineName := ENGINE_NAME,
      apiVersion := API_VERSION,
      enabledLayerNames := [VALIDATION_LAYER],
      enabledExtensionNames := extensionNames);
    r := createInstance(info);
    assert IsInstanceRequest(info, required.value);
  }

  /** The logical device and the queue handed back by `create_queue_and_logical_device`. */
  datatype LogicalDevice = LogicalDevice(device: LogicalDeviceHandle, presentQueue: QueueHandle)

  /** `info` is the device create-info `create_queue_and_logical_device`
      sends for the selected family. */
  ghost predicate IsDeviceRequest(info: DeviceCreateInfo, queueFamilyIndex: U32) {
    && info.queueCreateInfos == [DeviceQueueCreateInfo(queueFamilyIndex, 1)]
    && info.enabledExtensionNames == DEVICE_EXTENSION_NAMES
    && info.defaultFeatures
  }

  /** `create_queue_and_logical_device`: one queue from the selected family,
      every required device extension, no optional features; then queue 0
      of that family is fetched. */
  method CreateQueueAndLogicalDevice(
    queueFamilyIndex: U32,
    createDevice: DeviceCreateInfo -> Fallible<LogicalDeviceHandle>,
    getDeviceQueue: (LogicalDeviceHandle, U32, U32) -> QueueHandle)
    returns (r: Fallible<LogicalDevice>)
    ensures exists info :: (
      && IsDeviceRequest(info, queueFamilyIndex)
      && (r.Ok? <==> createDevice(info).Ok?)
      && (r.Err? ==> r.error == createDevice(info).error)
      && (r.Ok? ==> r.value.device == createDevice(info).value))
    ensures r.Ok? ==> r.value.presentQueue == getDeviceQueue(r.value.device, queueFamilyIndex, 0)
  {
    var info := DeviceCreateInfo(
      queueCreateInfos := [DeviceQueueCreateInfo(queueFamilyIndex, 1)],
      enabledExtensionNames := DEVICE_EXTENSION_NAMES,
      defaultFeatures := true);
    assert IsDeviceRequest(info, queueFamilyIndex);
    var device := createDevice(info);
    if device.Err? { return Err(device.error); }
    var presentQueue := getDeviceQueue(device.value, queueFamilyIndex, 0);
    r := Ok(LogicalDevice(device.value, presentQueue));
  }
}
