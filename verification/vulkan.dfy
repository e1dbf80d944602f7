/** The slice of the Vulkan API (as the `ash` bindings expose it) that the
    renderer's bootstrap touches: handles, flag sets, the records the driver
    reports and the create-info records the bootstrap fills in.

    Handles are opaque numbers. Flag bitmasks become sets of enumerators, so
    `flags.contains(X)` is `X in flags`. Every driver call that can fail
    returns a `Fallible`. */
module Vk {

  /** A 32-bit unsigned integer (`u32`). */
  type U32 = x: int | 0 <= x < 0x1_0000_0000

  /** `u32::MAX`, the "extent is decided by the swapchain" sentinel of
      VkSurfaceCapabilitiesKHR::currentExtent.width. */
  const U32_MAX: U32 := 0xFFFF_FFFF

  /** An 8-bit unsigned integer (`u8`). */
  type Byte = x: int | 0 <= x < 256

  /** The fallback window size used when the surface leaves the extent open. */
  const WIDTH: U32 := 800
  const HEIGHT: U32 := 600

  /** Why a step of the bootstrap failed, as the `Box<dyn Error>` it returns. */
  datatype Error =
    | Driver(code: int)        // a `vk::Result` error code from a driver call
    | Message(text: string)    // a string error raised by the bootstrap itself
    | WindowHandle             // the window collaborator could not hand out its display handle
    | Panicked                 // an `unwrap()` on an error: the process aborts

  /** The outcome of a fallible call. */
  datatype Fallible<+T> = Ok(value: T) | Err(error: Error)

  datatype Option<+T> = None | Some(value: T)

  type DeviceHandle = nat
  type SurfaceHandle = nat
  type SwapchainHandle = nat
  type ImageHandle = nat
  type ImageViewHandle = nat
  type InstanceHandle = nat
  type LogicalDeviceHandle = nat
  type QueueHandle = nat
  type DisplayHandle = nat

  /** `VkFormat` and `VkColorSpaceKHR` are passed through unchanged. */
  type FormatCode = int
  type ColorSpaceCode = int

  datatype Extent2D = Extent2D(width: U32, height: U32)

  datatype SurfaceFormat = SurfaceFormat(format: FormatCode, colorSpace: ColorSpaceCode)

  datatype PresentMode =
    | Immediate | Mailbox | Fifo | FifoRelaxed
    | SharedDemandRefresh | SharedContinuousRefresh
    | OtherPresentMode(code: int)

  datatype SurfaceTransform =
    | Identity | Rotate90 | Rotate180 | Rotate270
    | HorizontalMirror | HorizontalMirrorRotate90
    | HorizontalMirrorRotate180 | HorizontalMirrorRotate270
    | Inherit

  /** VkSurfaceCapabilitiesKHR, as far as the bootstrap reads it. */
  datatype SurfaceCapabilities = SurfaceCapabilities(
    minImageCount: U32,
    maxImageCount: U32,          // 0 means "no limit"
    currentExtent: Extent2D,     // width U32_MAX means "decided by the swapchain"
    minImageExtent: Extent2D,
    maxImageExtent: Extent2D,
    supportedTransforms: set<SurfaceTransform>,
    currentTransform: SurfaceTransform)

  datatype QueueFlag = Graphics | Compute | Transfer | SparseBinding | Protected | VideoDecode | VideoEncode | OpticalFlow

  datatype QueueFamilyProperties = QueueFamilyProperties(queueFlags: set<QueueFlag>, queueCount: U32)

  /** The queue families of one device. The driver reports their number as a
      `uint32_t`, so every index fits in a `u32`. */
  type QueueFamilyList = s: seq<QueueFamilyProperties> | |s| < 0x1_0000_0000

  /** VkExtensionProperties::extensionName: a fixed-size array of bytes that
      a conforming driver NUL-terminates. */
  datatype ExtensionProperties = ExtensionProperties(extensionName: seq<Byte>, specVersion: U32)

  datatype ImageUsage = TransferSrc | TransferDst | Sampled | Storage | ColorAttachment | DepthStencilAttachment
  datatype SharingMode = Exclusive | Concurrent
  datatype CompositeAlpha = Opaque | PreMultiplied | PostMultiplied | InheritAlpha

  /** VkSwapchainCreateInfoKHR; fields the bootstrap does not set keep the
      defaults of `vk::SwapchainCreateInfoKHR::default()`. */
  datatype SwapchainCreateInfo = SwapchainCreateInfo(
    surface: SurfaceHandle,
    minImageCount: U32,
    imageFormat: FormatCode,
    imageColorSpace: ColorSpaceCode,
    imageExtent: Extent2D,
    imageArrayLayers: U32,
    imageUsage: set<ImageUsage>,
    imageSharingMode: SharingMode,
    queueFamilyIndices: seq<U32>,
    preTransform: SurfaceTransform,
    compositeAlpha: CompositeAlpha,
    presentMode: PresentMode,
    clipped: bool,
    oldSwapchain: Option<SwapchainHandle>)

  datatype ImageViewType = Type1D | Type2D | Type3D | TypeCube | Type1DArray | Type2DArray | TypeCubeArray
  datatype ComponentSwizzle = SwizzleIdentity | SwizzleZero | SwizzleOne | SwizzleR | SwizzleG | SwizzleB | SwizzleA
  datatype ComponentMapping = ComponentMapping(r: ComponentSwizzle, g: ComponentSwizzle, b: ComponentSwizzle, a: ComponentSwizzle)
  datatype ImageAspect = AspectColor | AspectDepth | AspectStencil | AspectMetadata

  datatype ImageSubresourceRange = ImageSubresourceRange(
    aspectMask: set<ImageAspect>,
    baseMipLevel: U32,
    levelCount: U32,
    baseArrayLayer: U32,
    layerCount: U32)

  /** VkImageViewCreateInfo. */
  datatype ImageViewCreateInfo = ImageViewCreateInfo(
    image: ImageHandle,
    viewType: ImageViewType,
    format: FormatCode,
    components: ComponentMapping,
    subresourceRange: ImageSubresourceRange)

  /** `vk::make_api_version(variant, major, minor, patch)`, kept unpacked. */
  datatype ApiVersion = ApiVersion(variant: nat, major: nat, minor: nat, patch: nat)

  /** VkApplicationInfo + VkInstanceCreateInfo. */
  datatype InstanceCreateInfo = InstanceCreateInfo(
    applicationName: string,
    applicationVersion: U32,
    engineName: string,
    apiVersion: ApiVersion,
    enabledLayerNames: seq<string>,
    enabledExtensionNames: seq<string>)

  /** VkDeviceQueueCreateInfo; the queue priorities themselves are floats
      and only their number is kept. */
  datatype DeviceQueueCreateInfo = DeviceQueueCreateInfo(queueFamilyIndex: U32, queueCount: nat)

  /** VkDeviceCreateInfo; `defaultFeatures` says that
      `vk::PhysicalDeviceFeatures::default()` (nothing enabled) is passed. */
  datatype DeviceCreateInfo = DeviceCreateInfo(
    queueCreateInfos: seq<DeviceQueueCreateInfo>,
    enabledExtensionNames: seq<string>,
    defaultFeatures: bool)

  /** Names the bootstrap requires. */
  const VALIDATION_LAYER := "VK_LAYER_KHRONOS_validation"
  const DEBUG_UTILS_EXTENSION := "VK_EXT_debug_utils"
  const DEVICE_EXTENSION_NAMES: seq<string> := [
    "VK_KHR_ray_tracing_pipeline",
    "VK_KHR_spirv_1_4",
    "VK_KHR_acceleration_structure",
    "VK_KHR_deferred_host_operations",
    "VK_KHR_swapchain"
  ]

  /** The bytes of an ASCII name. */
  function AsciiBytes(s: string): (r: seq<Byte>)
    ensures |r| == |s|
    ensures forall i :: 0 <= i < |s| ==> r[i] == (s[i] as int) % 256
  {
    seq(|s|, i requires 0 <= i < |s| => (s[i] as int) % 256)
  }
}
