/** The swapchain settings the renderer picks from what the surface offers:
    present mode, surface format, image extent and image count. The driver
    queries that produce the offers, and the window-size query, become
    parameters. */
module Swapchain {
  import opened MachineInts

  datatype PresentMode =
    | Immediate
    | Mailbox
    | Fifo
    | FifoRelaxed
    | SharedDemandRefresh
    | SharedContinuousRefresh

  datatype Format = Undefined | B8G8R8A8Unorm | OtherFormat(code: nat)
  datatype ColorSpace = SrgbNonlinear | OtherColorSpace(code: nat)
  datatype SurfaceFormat = SurfaceFormat(format: Format, colorSpace: ColorSpace)

  datatype Extent2D = Extent2D(width: nat, height: nat)

  /** What the surface reports about swapchain images. A maxImageCount of 0
      means there is no upper limit; a currentExtent width of 2^32 - 1 means
      the window decides the extent. */
  datatype SurfaceCapabilities = SurfaceCapabilities(
    minImageCount: nat,
    maxImageCount: nat,
    currentExtent: Extent2D,
    minImageExtent: Extent2D,
    maxImageExtent: Extent2D)

  /** The format the renderer wants: 8-bit BGRA, sRGB colour space. */
  const Preferred: SurfaceFormat := SurfaceFormat(B8G8R8A8Unorm, SrgbNonlinear)

  // ---------------------------------------------------------------------
  // Present mode

  /** Mailbox if offered at all, otherwise immediate if offered, otherwise
      FIFO, which every surface supports; the scan stops at the first
      mailbox entry. */
  method ChoosePresentMode(available: seq<PresentMode>) returns (mode: PresentMode)
    ensures mode == Mailbox <==> Mailbox in available
    ensures mode == Immediate <==> Mailbox !in available && Immediate in available
    ensures mode == Fifo <==> Mailbox !in available && Immediate !in available
  {
    var optimal := Fifo;
    var k := 0;
    while k < |available|
      invariant k <= |available|
      invariant Mailbox !in available[..k]
      invariant optimal == if Immediate in available[..k] then Immediate else Fifo
    {
      assert available[..k + 1] == available[..k] + [available[k]];
      if available[k] == Mailbox {
        return available[k];
      } else if available[k] == Immediate {
        optimal := available[k];
      }
      k := k + 1;
    }
    assert available[..k] == available;
    return optimal;
  }

  // ---------------------------------------------------------------------
  // Surface format

  /** A lone undefined entry means the surface takes any format, and the
      preferred one is used; otherwise the preferred pair if it is offered,
      else the first offer. */
  method ChooseSurfaceFormat(available: seq<SurfaceFormat>) returns (chosen: SurfaceFormat)
    requires |available| > 0
    ensures |available| == 1 && available[0].format == Undefined ==> chosen == Preferred
    ensures !(|available| == 1 && available[0].format == Undefined) ==>
      chosen == if Preferred in available then Preferred else available[0]
    ensures chosen == Preferred || chosen == available[0]
  {
    if |available| == 1 && available[0].format == Undefined {
      return Preferred;
    }
    var k := 0;
    while k < |available|
      invariant k <= |available|
      invariant Preferred !in available[..k]
    {
      assert available[..k + 1] == available[..k] + [available[k]];
      if available[k].format == B8G8R8A8Unorm && available[k].colorSpace == SrgbNonlinear {
        return available[k];
      }
      k := k + 1;
    }
    assert available[..k] == available;
    return available[0];
  }

  // ---------------------------------------------------------------------
  // Extent

  function Min(x: nat, y: nat): nat
  {
    if x <= y then x else y
  }

  function Max(x: nat, y: nat): nat
  {
    if x >= y then x else y
  }

  /** The clamp of one dimension, described by where the value falls. */
  predicate ClampedInto(lo: nat, hi: nat, wanted: nat, got: nat)
  {
    && (lo <= hi ==> lo <= got <= hi)
    && (lo <= wanted <= hi ==> got == wanted)
    && (wanted < lo ==> got == lo)
    && (hi < wanted ==> got == Max(lo, hi))
  }

  /** The surface's own extent when it fixes one; otherwise the window's
      size, each dimension clamped into the surface's [min, max] range. */
  function ChooseExtent(caps: SurfaceCapabilities, window: Extent2D): (e: Extent2D)
    ensures caps.currentExtent.width != Uint32Max ==> e == caps.currentExtent
    ensures caps.currentExtent.width == Uint32Max ==>
      && ClampedInto(caps.minImageExtent.width, caps.maxImageExtent.width, window.width, e.width)
      && ClampedInto(caps.minImageExtent.height, caps.maxImageExtent.height, window.height, e.height)
  {
    if caps.currentExtent.width != Uint32Max then caps.currentExtent
    else
      Extent2D(Max(caps.minImageExtent.width, Min(caps.maxImageExtent.width, window.width)),
               Max(caps.minImageExtent.height, Min(caps.maxImageExtent.height, window.height)))
  }

  /** Choosing again with the chosen extent as the window size changes
      nothing. */
  lemma ExtentIdempotent(caps: SurfaceCapabilities, window: Extent2D)
    ensures ChooseExtent(caps, ChooseExtent(caps, window)) == ChooseExtent(caps, window)
  {
  }

  // ---------------------------------------------------------------------
  // Image count

  /** One image more than the minimum, for triple buffering, computed in
      32-bit unsigned arithmetic and lowered to the maximum when there is
      one and it is exceeded. For capabilities a conforming surface reports
      (a minimum not above the maximum, or no maximum) the count lies in
      [minimum, maximum] and is one above the minimum unless the maximum
      caps it. A minimum of 2^32 - 1 wraps the request to zero images. */
  function ImageCount(caps: SurfaceCapabilities): (count: nat)
    requires caps.minImageCount < Uint32Limit && caps.maxImageCount < Uint32Limit
    ensures caps.maxImageCount > 0 ==> count <= caps.maxImageCount
    ensures caps.minImageCount < Uint32Max && (caps.maxImageCount == 0 || caps.minImageCount <= caps.maxImageCount) ==>
      caps.minImageCount <= count
    ensures caps.minImageCount < Uint32Max && (caps.maxImageCount == 0 || caps.minImageCount < caps.maxImageCount) ==>
      count == caps.minImageCount + 1
    ensures caps.minImageCount < Uint32Max && caps.maxImageCount > 0 && caps.minImageCount >= caps.maxImageCount ==>
      count == caps.maxImageCount
    ensures caps.minImageCount == Uint32Max ==> count == 0
  {
    var wanted := Wrap32(caps.minImageCount + 1);
    if caps.maxImageCount > 0 && wanted > caps.maxImageCount then caps.maxImageCount else wanted
  }
}
