/** The swapchain builder: `create_swapchain` picks the configuration from
    what the surface reports (VkSurfaceCapabilitiesKHR, the format list and
    the present-mode list) and asks the driver for a swapchain;
    `get_swapchain_images` fetches its images and creates one view for each. */
module Swapchain {
  import opened Vk

  const NO_PRESENT_MODES := "No present modes detected!"
  const NO_FORMATS := "No formats detected!"

  /** MAILBOX whenever the surface offers it, else the first mode listed. */
  function ChoosePresentMode(modes: seq<PresentMode>): (r: Fallible<PresentMode>)
    ensures r.Ok? <==> |modes| > 0
    ensures r.Err? ==> r.error == Message(NO_PRESENT_MODES)
    ensures r.Ok? ==> r.value in modes
    ensures Mailbox in modes ==> r == Ok(Mailbox)
    ensures r.Ok? && r.value != Mailbox ==> Mailbox !in modes && r.value == modes[0]
  {
    if Mailbox in modes then Ok(Mailbox)
    else if |modes| == 0 then Err(Message(NO_PRESENT_MODES))
    else Ok(modes[0])
  }

  /** Where MAILBOX stands in the list does not matter. */
  lemma MailboxPositionIsIrrelevant(modes1: seq<PresentMode>, modes2: seq<PresentMode>)
    requires Mailbox in modes1 && Mailbox in modes2
    ensures ChoosePresentMode(modes1) == ChoosePresentMode(modes2) == Ok(Mailbox)
  {
  }

  /** `n` is the `min_image_count` field of the swapchain create-info:
      `min_image_count + 1` in `u32` arithmetic (wrapping, as a release
      build computes it), clamped down to a nonzero maximum. It names the
      request so that `CreateSwapchain` and `RequestedImageCountIsLegal`
      can speak of it. */
  ghost predicate IsRequestedImageCount(caps: SurfaceCapabilities, n: U32) {
    var wanted := (caps.minImageCount + 1) % 0x1_0000_0000;
    n == if 0 < caps.maxImageCount < wanted then caps.maxImageCount else wanted
  }

  /** The `let mut image_count` of `create_swapchain`. */
  method ChooseImageCount(caps: SurfaceCapabilities) returns (imageCount: U32)
    ensures IsRequestedImageCount(caps, imageCount)
    ensures caps.maxImageCount > 0 ==> imageCount <= caps.maxImageCount
    ensures caps.minImageCount < U32_MAX && (caps.maxImageCount == 0 || caps.minImageCount < caps.maxImageCount)
      ==> imageCount == caps.minImageCount + 1
    ensures caps.minImageCount < U32_MAX && 0 < caps.maxImageCount <= caps.minImageCount
      ==> imageCount == caps.maxImageCount
  {
    imageCount := (caps.minImageCount + 1) % 0x1_0000_0000;
    if caps.maxImageCount > 0 && imageCount > caps.maxImageCount {
      imageCount := caps.maxImageCount;
    }
  }

  /** Surface capabilities as the Vulkan specification guarantees them:
      at least one image, and a nonzero maximum no smaller than the minimum. */
  predicate IsConformingCapabilities(caps: SurfaceCapabilities) {
    && 1 <= caps.minImageCount
    && (caps.maxImageCount == 0 || caps.minImageCount <= caps.maxImageCount)
  }

  /** On conforming capabilities the requested count is a legal one: it lies
      between the minimum and a nonzero maximum, and exceeds the minimum by
      one when there is room. */
  lemma RequestedImageCountIsLegal(caps: SurfaceCapabilities, n: U32)
    requires IsConformingCapabilities(caps) && caps.minImageCount < U32_MAX
    requires IsRequestedImageCount(caps, n)
    ensures caps.minImageCount <= n
    ensures caps.maxImageCount > 0 ==> n <= caps.maxImageCount
    ensures n == caps.minImageCount + 1 || n == caps.maxImageCount == caps.minImageCount
  {
  }

  /** When the surface reports u32::MAX as the current width, the fixed
      800x600 window size; otherwise the current extent as reported. */
  function ChooseExtent(caps: SurfaceCapabilities): (e: Extent2D)
    ensures caps.currentExtent.width == U32_MAX ==> e == Extent2D(WIDTH, HEIGHT)
    ensures caps.currentExtent.width != U32_MAX ==> e == caps.currentExtent
    ensures e.width != U32_MAX
  {
    if caps.currentExtent.width == U32_MAX then Extent2D(WIDTH, HEIGHT) else caps.currentExtent
  }

  /** Only the reported width is inspected: two capability reports whose
      current extents share a width give the same extent when that width is
      the sentinel, whatever their heights and every other field. */
  lemma ExtentIgnoresHeightOfUndefinedExtent(caps1: SurfaceCapabilities, caps2: SurfaceCapabilities)
    requires caps1.currentExtent.width == caps2.currentExtent.width == U32_MAX
    ensures ChooseExtent(caps1) == ChooseExtent(caps2)
  {
  }

  /** The fallback extent is not clamped to the surface's extent bounds: a
      surface that leaves the extent open but allows at most 640x480 still
      gets 800x600. */
  lemma FallbackExtentCanLeaveBounds()
    ensures var caps := SurfaceCapabilities(2, 0, Extent2D(U32_MAX, U32_MAX), Extent2D(1, 1),
                                            Extent2D(640, 480), {Identity}, Identity);
            ChooseExtent(caps).width > caps.maxImageExtent.width
  {
  }

  /** IDENTITY when supported, else the current transform. */
  function ChoosePreTransform(caps: SurfaceCapabilities): (t: SurfaceTransform)
    ensures t == Identity || t == caps.currentTransform
    ensures Identity in caps.supportedTransforms ==> t == Identity
    ensures Identity !in caps.supportedTransforms ==> t == caps.currentTransform
  {
    if Identity in caps.supportedTransforms then Identity else caps.currentTransform
  }

  /** `info` is the create-info `create_swapchain` submits for this surface,
      these capabilities, the first reported format and the chosen mode. */
  ghost predicate IsSwapchainRequest(
    info: SwapchainCreateInfo, surface: SurfaceHandle, caps: SurfaceCapabilities,
    format: SurfaceFormat, mode: PresentMode)
  {
    && info.surface == surface
    && IsRequestedImageCount(caps, info.minImageCount)
    && info.imageFormat == format.format
    && info.imageColorSpace == format.colorSpace
    && info.imageExtent == ChooseExtent(caps)
    && info.imageArrayLayers == 1
    && info.imageUsage == {ColorAttachment}
    && info.imageSharingMode == Exclusive
    && info.queueFamilyIndices == []
    && info.preTransform == ChoosePreTransform(caps)
    && info.compositeAlpha == Opaque
    && info.presentMode == mode
    && info.clipped
    && info.oldSwapchain == None
  }

  /** What `create_swapchain` returns: the swapchain and the format it uses. */
  datatype SwapchainBundle = SwapchainBundle(swapchain: SwapchainHandle, format: SurfaceFormat)

  /** `create_swapchain`. The three surface queries are made in order and
      their errors returned as they come; then the present mode is chosen
      (its error comes before the format error), the image count, extent,
      pre-transform and format are computed, and the driver is asked for a
      swapchain with the create-info `IsSwapchainRequest` describes. */
  method CreateSwapchain(
    surface: SurfaceHandle,
    capabilities: Fallible<SurfaceCapabilities>,
    formats: Fallible<seq<SurfaceFormat>>,
    presentModes: Fallible<seq<PresentMode>>,
    createSwapchain: SwapchainCreateInfo -> Fallible<SwapchainHandle>)
    returns (r: Fallible<SwapchainBundle>)
    ensures capabilities.Err? ==> r == Err(capabilities.error)
    ensures capabilities.Ok? && formats.Err? ==> r == Err(formats.error)
    ensures capabilities.Ok? && formats.Ok? && presentModes.Err? ==> r == Err(presentModes.error)
    ensures capabilities.Ok? && formats.Ok? && presentModes.Ok? && presentModes.value == []
      ==> r == Err(Message(NO_PRESENT_MODES))
    ensures capabilities.Ok? && formats.Ok? && presentModes.Ok? && presentModes.value != [] && formats.value == []
      ==> r == Err(Message(NO_FORMATS))
    ensures capabilities.Ok? && formats.Ok? && presentModes.Ok? && presentModes.value != [] && formats.value != []
      ==> exists info :: (
        && IsSwapchainRequest(info, surface, capabilities.value, formats.value[0],
             ChoosePresentMode(presentModes.value).value)
        && (r.Ok? <==> createSwapchain(info).Ok?)
        && (r.Ok? ==> r.value == SwapchainBundle(createSwapchain(info).value, formats.value[0]))
        && (r.Err? ==> r.error == createSwapchain(info).error))
  {
    if capabilities.Err? { return Err(capabilities.error); }
    if formats.Err? { return Err(formats.error); }
    if presentModes.Err? { return Err(presentModes.error); }
    var caps := capabilities.value;

    var presentMode := ChoosePresentMode(presentModes.value);
    if presentMode.Err? { return Err(presentMode.error); }

    var imageCount := ChooseImageCount(caps);
    var extent := ChooseExtent(caps);
    var preTransform := ChoosePreTransform(caps);

    if formats.value == [] { return Err(Message(NO_FORMATS)); }
    var format := formats.value[0];

    var info := SwapchainCreateInfo(
      surface := surface,
      minImageCount := imageCount,
      imageFormat := format.format,
      imageColorSpace := format.colorSpace,
      imageExtent := extent,
      imageArrayLayers := 1,
      imageUsage := {ColorAttachment},
      imageSharingMode := Exclusive,
      queueFamilyIndices := [],
      preTransform := preTransform,
      compositeAlpha := Opaque,
      presentMode := presentMode.value,
      clipped := true,
      oldSwapchain := None);
    assert IsSwapchainRequest(info, surface, caps, format, presentMode.value);

    var created := createSwapchain(info);
    if created.Err? { return Err(created.error); }
    r := Ok(SwapchainBundle(created.value, format));
  }

  /** A surface reporting min 2, no maximum, one format, FIFO only and a
      1024x768 current extent gets a request for 3 images of 1024x768 with
      FIFO presentation. */
  lemma ExampleRequest(info: SwapchainCreateInfo, surface: SurfaceHandle, format: SurfaceFormat)
    requires var caps := SurfaceCapabilities(2, 0, Extent2D(1024, 768), Extent2D(1, 1),
                                             Extent2D(4096, 4096), {Identity, Rotate90}, Rotate90);
             IsSwapchainRequest(info, surface, caps, format, ChoosePresentMode([Fifo]).value)
    ensures info.minImageCount == 3
    ensures info.imageExtent == Extent2D(1024, 768)
    ensures info.presentMode == Fifo
    ensures info.preTransform == Identity
  {
  }

  /** The view `get_swapchain_images` requests for one image: a 2-D colour
      view in the swapchain's format, red, green and blue passed through,
      alpha forced to one, one mip level and one layer from 0. */
  ghost predicate IsViewRequest(info: ImageViewCreateInfo, image: ImageHandle, format: SurfaceFormat) {
    && info.image == image
    && info.viewType == Type2D
    && info.format == format.format
    && info.components == ComponentMapping(SwizzleIdentity, SwizzleIdentity, SwizzleIdentity, SwizzleOne)
    && info.subresourceRange == ImageSubresourceRange({AspectColor}, 0, 1, 0, 1)
  }

  /** What `get_swapchain_images` returns. */
  datatype SwapchainImages = SwapchainImages(images: seq<ImageHandle>, views: seq<ImageViewHandle>)

  /** What a run of the view batch over `images` looks like: the requests
      made are the view requests of a prefix of the images, every request
      but the last succeeded, and the outcome is either a view for every
      image, in order, or the error of the last request made. */
  ghost predicate IsViewBatchOutcome(
    images: seq<ImageHandle>, format: SurfaceFormat,
    createImageView: ImageViewCreateInfo -> Fallible<ImageViewHandle>,
    r: Fallible<SwapchainImages>, requested: seq<ImageViewCreateInfo>)
  {
    && |requested| <= |images|
    && (forall i :: 0 <= i < |requested| ==> IsViewRequest(requested[i], images[i], format))
    && (forall i :: 0 <= i < |requested| - 1 ==> createImageView(requested[i]).Ok?)
    && (r.Ok? ==> (
         && r.value.images == images
         && |requested| == |r.value.views| == |images|
         && forall i :: 0 <= i < |requested| ==> createImageView(requested[i]) == Ok(r.value.views[i])))
    && (r.Err? ==> 0 < |requested| && createImageView(requested[|requested| - 1]) == Err(r.error))
  }

  /** `get_swapchain_images`. A failed image query is returned as is.
      Otherwise one view is requested per image, in order, and the first
      failing request ends the batch with its error: the batch succeeds
      exactly when every image's view can be created, with one view per
      image in order, and a failure carries the error of the first image
      whose view fails. `requested` lists the requests made, so none
      follows a failure. */
  method GetSwapchainImages(
    images: Fallible<seq<ImageHandle>>,
    format: SurfaceFormat,
    createImageView: ImageViewCreateInfo -> Fallible<ImageViewHandle>)
    returns (r: Fallible<SwapchainImages>, ghost requested: seq<ImageViewCreateInfo>)
    ensures images.Err? ==> r == Err(images.error)
    ensures images.Ok? ==> (r.Ok? <==> forall info: ImageViewCreateInfo, i :: (
      0 <= i < |images.value| && IsViewRequest(info, images.value[i], format) ==> createImageView(info).Ok?))
    ensures r.Ok? ==> (
      && images.Ok?
      && r.value.images == images.value
      && |r.value.views| == |images.value|
      && forall info: ImageViewCreateInfo, i :: (0 <= i < |images.value| && IsViewRequest(info, images.value[i], format)
           ==> createImageView(info) == Ok(r.value.views[i])))
    ensures images.Ok? && r.Err? ==> IsFirstFailure(images.value, format, createImageView, r.error)
    ensures images.Err? ==> requested == []
    ensures images.Ok? ==> IsViewBatchOutcome(images.value, format, createImageView, r, requested)
  {
    requested := [];
    if images.Err? { return Err(images.error), requested; }
    var views: seq<ImageViewHandle> := [];
    var i := 0;
    while i < |images.value|
      invariant 0 <= i <= |images.value|
      invariant |requested| == |views| == i
      invariant forall j :: 0 <= j < i ==> IsViewRequest(requested[j], images.value[j], format)
      invariant forall j :: 0 <= j < i ==> createImageView(requested[j]) == Ok(views[j])
    {
      var info := ImageViewCreateInfo(
        image := images.value[i],
        viewType := Type2D,
        format := format.format,
        components := ComponentMapping(SwizzleIdentity, SwizzleIdentity, SwizzleIdentity, SwizzleOne),
        subresourceRange := ImageSubresourceRange({AspectColor}, 0, 1, 0, 1));
      requested := requested + [info];
      var view := createImageView(info);
      if view.Err? {
        r := Err(view.error);
        BatchOutcomeMeansEveryViewOrFirstFailure(images.value, format, createImageView, r, requested);
        return;
      }
      views := views + [view.value];
      i := i + 1;
    }
    r := Ok(SwapchainImages(images.value, views));
    BatchOutcomeMeansEveryViewOrFirstFailure(images.value, format, createImageView, r, requested);
  }

  /** `k` is the first image whose view request fails, and it fails with `error`. */
  ghost predicate IsFirstFailure(
    images: seq<ImageHandle>, format: SurfaceFormat,
    createImageView: ImageViewCreateInfo -> Fallible<ImageViewHandle>, error: Error)
  {
    exists k :: (
      && 0 <= k < |images|
      && (forall info: ImageViewCreateInfo :: IsViewRequest(info, images[k], format) ==> createImageView(info) == Err(error))
      && (forall info: ImageViewCreateInfo, i :: 0 <= i < k && IsViewRequest(info, images[i], format) ==> createImageView(info).Ok?))
  }

  /** A run of the batch, read in terms of the view requests alone. */
  lemma BatchOutcomeMeansEveryViewOrFirstFailure(
    images: seq<ImageHandle>, format: SurfaceFormat,
    createImageView: ImageViewCreateInfo -> Fallible<ImageViewHandle>,
    r: Fallible<SwapchainImages>, requested: seq<ImageViewCreateInfo>)
    requires IsViewBatchOutcome(images, format, createImageView, r, requested)
    ensures r.Ok? <==> forall info: ImageViewCreateInfo, i :: (0 <= i < |images| && IsViewRequest(info, images[i], format)
      ==> createImageView(info).Ok?)
    ensures r.Ok? ==> forall info: ImageViewCreateInfo, i :: (0 <= i < |images| && IsViewRequest(info, images[i], format)
      ==> createImageView(info) == Ok(r.value.views[i]))
    ensures r.Err? ==> IsFirstFailure(images, format, createImageView, r.error)
  {
    if r.Ok? {
      forall info: ImageViewCreateInfo, i | 0 <= i < |images| && IsViewRequest(info, images[i], format)
        ensures createImageView(info) == Ok(r.value.views[i])
      {
        assert info == requested[i];
      }
    } else {
      var k := |requested| - 1;
      assert IsViewRequest(requested[k], images[k], format);
      forall info: ImageViewCreateInfo, i | 0 <= i < k && IsViewRequest(info, images[i], format)
        ensures createImageView(info).Ok?
      {
        assert info == requested[i];
      }
      forall info: ImageViewCreateInfo | IsViewRequest(info, images[k], format)
        ensures createImageView(info) == Err(r.error)
      {
        assert info == requested[k];
      }
    }
  }
}
