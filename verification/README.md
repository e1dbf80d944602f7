# voxelvoxel Vulkan bootstrap, modelled in Dafny

voxelvoxel's renderer starts by negotiating with the Vulkan driver. It creates
an instance with the window's surface extensions plus debug-utils, and it
registers a debug messenger. It then picks a physical device and a queue family
that can draw to the window's surface, and creates a logical device and its
queue. Last, it configures and creates a swapchain and makes one image view per
swapchain image. This project models those decisions. It proves what each one
selects, clamps, formats or rejects.

The driver never runs here. Each query result is an input: the device list,
extension lists, queue families, surface capabilities, formats and present
modes. Each driver call that creates something is a function-typed parameter,
an oracle that answers `Ok(handle)` or `Err(code)`. Each create-info the code
builds is described by a predicate (`IsInstanceRequest`, `IsDeviceRequest`,
`IsSwapchainRequest`, `IsViewRequest`) that pins down every field. A method's
result is stated as the oracle's answer to the request satisfying that
predicate. The view batch also returns a ghost `requested` list, which records
the requests made in order, so the contracts can say that no request follows a
failure.

Modules:

- `Vk` (`vulkan.dfy`): handles, flag sets (as sets of enumerators), the records
  the driver reports, create-info records, `u32` and byte types, and the
  constants (`WIDTH`/`HEIGHT` = 800x600, the required layer and extension names).
- `CStrings` (`cstrings.dfy`): `CStr::from_bytes_until_nul`, and the `{:?}`
  rendering of a `CStr` (`"` + `escape_ascii` + `"`) with a decoder that inverts it.
- `DeviceSelection` (`device_selection.dfy`): `find_suitable_physical_device`.
- `Instance` (`instance.dfy`): `create_instance`, `create_queue_and_logical_device`.
- `Swapchain` (`swapchain.dfy`): `create_swapchain`, `get_swapchain_images`.
- `DebugCallback` (`debug_callback.dfy`): `setup_debug_callback`, `vulkan_debug_callback`.

In three places the code does something a reader might not expect, and the model follows the code:

- The validation layer and the debug-utils extension are always enabled. They
  do not depend on a diagnostics flag.
- The extension gate (src/main.rs:116-122) does not check that the required
  extensions are present. A device passes when the extension enumeration
  succeeds and at least one extension name is NUL-terminated. The model keeps
  this behaviour, and `GateAcceptsDeviceMissingRequiredExtensions` shows its
  effect: a device that lists only `VK_KHR_swapchain` is accepted.
- When the surface leaves the extent open, the fallback is the `WIDTH`/`HEIGHT`
  constants. The window size passed to `new` is not used.

## Model

| member | source | states |
|---|---|---|
| `CStrings.UntilNul` | src/main.rs:119 | Succeeds exactly when the name array holds a NUL. The result is the prefix before the first NUL, so it contains no NUL. |
| `CStrings.EscapeAscii` | src/main.rs:373-381 | The escaped text is printable ASCII only. It is at least as long as the input and at most four characters per byte. |
| `CStrings.DebugCStr` | src/main.rs:373-381 | The `{:?}` rendering is quoted at both ends and printable throughout. |
| `CStrings.ReadEscapedInvertsEscape` | src/main.rs:373-381 | Reading escaped text back up to the closing quote gives the original bytes, whatever follows the quote. |
| `CStrings.DebugCStrRoundTrip` | src/main.rs:373-381 | A `{:?}`-rendered C string reads back exactly, with the remaining text untouched. |
| `DeviceSelection.ExtensionProbe` | src/main.rs:116-122 | Gives an answer exactly when some extension name holds a NUL. The answer is whether the FIRST such name equals the wanted name. |
| `DeviceSelection.PassesExtensionGate` | src/main.rs:112-122 | The gate as written: a device passes exactly when its extension enumeration succeeds and some extension name holds a NUL. The name comparison is discarded. |
| `DeviceSelection.FamilySupportsFeatures` | src/main.rs:94-106 | A family qualifies only with GRAPHICS and a surface-support answer of Ok(true). A failed support query or a `false` answer skips the family. |
| `DeviceSelection.FirstSuitableFamily` | src/main.rs:94-131 | Returns the lowest family index at or after `from` that has GRAPHICS and whose surface-support query is Ok(true). Returns nothing when no such family exists. |
| `DeviceSelection.FirstSuitableDevice` | src/main.rs:108-132 | Returns the first device, in enumeration order, that passes the gate and has a suitable family, paired with its lowest suitable family. Returns nothing when no device qualifies. |
| `DeviceSelection.FindSuitablePhysicalDevice` | src/main.rs:87-134 | A failed device enumeration is returned unchanged. Otherwise the result is the first-match pair (`IsFirstMatch`), or "No suitable physical devices found." when no enumerated device qualifies. |
| `DeviceSelection.FirstMatchIsUnique` | src/main.rs:108-133 | The first-match specification picks exactly one (device position, family index) pair. |
| `DeviceSelection.SelectionSucceedsIffSomeDeviceQualifies` | src/main.rs:108-133 | Selection succeeds if and only if enumeration succeeds and some enumerated device qualifies. |
| `DeviceSelection.SupportOfNonGraphicsFamiliesIsIrrelevant` | src/main.rs:98-101 | Surface support matters only for GRAPHICS families. Two support oracles that agree on those families give the same selection. |
| `DeviceSelection.ProbeIgnoresWantedName` | src/main.rs:116-122 | Whether the probe answers does not depend on the name it compares against. |
| `DeviceSelection.GateIgnoresNameComparison` | src/main.rs:116-122 | For one NUL-terminated name, the probe computes the comparison with `VK_KHR_ray_tracing_pipeline`, and the gate passes whatever the comparison says. |
| `DeviceSelection.GateAcceptsDeviceMissingRequiredExtensions` | src/main.rs:116-122 | A device listing only `VK_KHR_swapchain` passes the gate, although that name differs from each of the four ray-tracing names. |
| `DeviceSelection.GateRejectsExactlyUnterminatedLists` | src/main.rs:112-122 | A successfully enumerated device is skipped if and only if none of its extension names holds a NUL. An empty list is skipped. |
| `Instance.CreateInstance` | src/main.rs:42-65 | The display-handle error is returned first. An extension-enumeration error aborts (unwrap). Otherwise the request carries the window's extensions in order with debug-utils appended, the validation layer, "VoxelVoxel", version 0, "No Engine" and API 1.2.162, and the result is the driver's answer. |
| `Instance.CreateQueueAndLogicalDevice` | src/main.rs:135-157 | The request holds one queue from the selected family, all five required extensions and no optional features. On success the queue is queue 0 of that family. A driver error is returned unchanged. |
| `Swapchain.ChoosePresentMode` | src/main.rs:181-185 | MAILBOX whenever it is listed. Otherwise the first listed mode. An empty list gives "No present modes detected!". The chosen mode is always one of those listed. |
| `Swapchain.MailboxPositionIsIrrelevant` | src/main.rs:181-185 | Any two lists containing MAILBOX choose MAILBOX, wherever it stands. |
| `Swapchain.ChooseImageCount` | src/main.rs:187-191 | Never exceeds a nonzero maximum. It is `min+1` when the maximum is 0 or above `min`, and equals the maximum when that maximum is nonzero and at most `min`. It uses `u32` wrap-around for `min+1`. |
| `Swapchain.RequestedImageCountIsLegal` | src/main.rs:187-191 | On conforming capabilities, the count lies between the minimum and a nonzero maximum. It is `min+1` unless the maximum equals the minimum. |
| `Swapchain.ChooseExtent` | src/main.rs:193-200 | A width of `u32::MAX` gives exactly 800x600. Any other width gives the reported current extent unchanged. The chosen width is never the sentinel. |
| `Swapchain.ExtentIgnoresHeightOfUndefinedExtent` | src/main.rs:193-200 | When the width is the sentinel, the reported height and every other field are ignored. |
| `Swapchain.FallbackExtentCanLeaveBounds` | src/main.rs:193-200 | The fallback is not clamped. A surface with maximum extent 640x480 and an open current extent still gets width 800. |
| `Swapchain.ChoosePreTransform` | src/main.rs:202-209 | IDENTITY if supported, else the current transform. |
| `Swapchain.CreateSwapchain` | src/main.rs:158-235 | Query errors are returned in query order. Then "No present modes detected!" comes before "No formats detected!". Otherwise the driver gets exactly one create-info carrying the computed image count, extent, mode, transform and the first format, with 1 layer, EXCLUSIVE sharing, COLOR_ATTACHMENT usage, OPAQUE alpha, clipped and no old swapchain. The result is that swapchain with the first format, or the driver's error. |
| `Swapchain.ExampleRequest` | src/main.rs:181-228 | min 2, max 0, FIFO only, current extent 1024x768 gives 3 images, 1024x768, FIFO, and IDENTITY when supported. |
| `Swapchain.GetSwapchainImages` | src/main.rs:236-271 | A failed image query is returned unchanged. Otherwise views are requested image by image, in order, each a 2-D view in the swapchain format with r/g/b IDENTITY, a ONE, and mip 0..1 and layer 0..1 of COLOR. It succeeds if and only if every view request succeeds, and then holds the images and one view per image, in order. On failure the error is that of the first image whose view fails, and no request follows it. |
| `Swapchain.BatchOutcomeMeansEveryViewOrFirstFailure` | src/main.rs:244-270 | Any run that requests views image by image and stops at the first failure succeeds if and only if every image's view request succeeds. On success the views are the driver's answers in image order. A failure carries the error of the first image whose view fails. |
| `DebugCallback.SetupDebugCallback` | src/main.rs:66-86 | The messenger is registered for ERROR, WARNING and INFO (not VERBOSE) and for all four message types. The result is the driver's answer. |
| `DebugCallback.Tag` | src/main.rs:357-370 | The tag is the letter exactly when the flag is present, and `_` otherwise. |
| `DebugCallback.FormatLine` | src/main.rs:367-382 | Positions 0-2 are G/V/P or `_` by flag. With B set, the separator follows the three tags directly. Without B, a `_` comes before the separator. |
| `DebugCallback.ParseLineInvertsFormatLine` | src/main.rs:371-382 | The line can be parsed back into its three tags and the message id. The message body is recovered exactly when B is absent, and there is none when B is present. |
| `DebugCallback.LevelFor` | src/main.rs:384-394 | ERROR > WARNING > INFO > VERBOSE: the first flag contained picks error/warn/info/debug, and none of them gives trace. Each direction is stated. |
| `DebugCallback.Callback` | src/main.rs:346-397 | Always returns `vk::FALSE`. It logs the formatted line at the laddered level. |
| `DebugCallback.DeliveredMessagesAreNeverDebugOrTrace` | src/main.rs:71-75 | A message the registered filter lets through (one severity bit out of ERROR/WARNING/INFO) is logged at error, warn or info, never debug or trace. |

## Left out

- Window and event-loop creation, `ash::Entry` loading, surface creation and the chosen-device log line (src/main.rs:272-310). These are platform I/O and foreign calls. Their results are inputs.
- `VoxelRenderer::new`'s sequencing of the steps is not modelled as one member. Each step is modelled separately, and `new` propagates each step's error with `?`.
- Raw driver calls (`create_instance`, `create_debug_utils_messenger`, `create_device`, `get_device_queue`, `create_swapchain`, `get_swapchain_images`, `create_image_view`) are modelled as oracles. They are pure functions of the request, so a call's side effect on the driver, such as a live handle, is not represented. Only the view batch records which calls were made (its ghost `requested` list).
- The `f32` queue priority `[1.0]`. Only the number of queues (one) is kept.
- `vk::make_api_version` bit packing. The version is kept as its four parts.
- `CStr::from_ptr` pointer reads in the callback and for the required names. Names and messages are byte sequences; a C string read by `from_ptr` never holds a NUL.
- Log emission and `env_logger` setup. The callback returns the level and the line instead of logging.
- Teardown, destruction order, rebuild on resize and cleanup on partial failure. The source has none: created handles are simply dropped at src/main.rs:326-335.
- Swapchain.ChooseImageCount: `min_image_count + 1` is modelled with `u32` wrap-around, as a release build computes it. A debug build panics instead when `min_image_count` is `u32::MAX`.
- Instance.CreateInstance: the panic of `unwrap()` on a failed extension enumeration is modelled as the error value `Panicked`, not as a process abort.
