/** How the renderer judges a physical device: the memory-type search, the
    required-extension check and the device score. What the driver reports
    about a device is a plain record here; the queue-family search is
    reduced to its verdict. */
module DeviceSelection {
  import opened Outcomes
  import opened MachineInts
  import opened Swapchain

  /** A device reports at most this many memory types. */
  const MaxMemoryTypes: nat := 32

  // ---------------------------------------------------------------------
  // Memory type

  /** Memory type i is allowed by the filter (bit i set) and has every
      requested property flag. */
  predicate Suitable(typeFilter: bv32, typeFlags: seq<bv32>, properties: bv32, i: nat)
    requires i < |typeFlags| && i < MaxMemoryTypes
  {
    typeFilter & ((1 as bv32) << i) != 0 && typeFlags[i] & properties == properties
  }

  /** The lowest suitable memory type; failure when there is none. */
  method FindMemoryType(typeFilter: bv32, typeFlags: seq<bv32>, properties: bv32) returns (r: Outcome<nat>)
    requires |typeFlags| <= MaxMemoryTypes
    ensures r.Ok? ==> r.value < |typeFlags| && Suitable(typeFilter, typeFlags, properties, r.value)
    ensures r.Ok? ==> forall k :: 0 <= k < r.value ==> !Suitable(typeFilter, typeFlags, properties, k)
    ensures r.Fail? <==> forall k :: 0 <= k < |typeFlags| ==> !Suitable(typeFilter, typeFlags, properties, k)
    ensures r.Fail? ==> r.failure == NoSuitableMemory
  {
    var i := 0;
    while i < |typeFlags|
      invariant i <= |typeFlags|
      invariant forall k :: 0 <= k < i ==> !Suitable(typeFilter, typeFlags, properties, k)
    {
      if typeFilter & ((1 as bv32) << i) != 0 && typeFlags[i] & properties == properties {
        assert Suitable(typeFilter, typeFlags, properties, i);
        return Ok(i);
      }
      i := i + 1;
    }
    return Fail(NoSuitableMemory);
  }

  // ---------------------------------------------------------------------
  // Extensions

  /** Every required extension name is among the supported ones. */
  predicate Supports(required: seq<string>, supported: seq<string>)
  {
    forall name :: name in required ==> name in supported
  }

  /** Crosses each supported name off the set of required names; the
      required extensions are supported when nothing is left. Outside debug
      builds the scan stops as soon as the set is empty, which does not
      change the verdict. */
  method CheckExtensionSupport(required: seq<string>, supported: seq<string>, debug: bool) returns (ok: bool)
    ensures ok <==> Supports(required, supported)
  {
    var pending := set name | name in required;
    var k := 0;
    while k < |supported|
      invariant k <= |supported|
      invariant pending == (set name | name in required) - (set name | name in supported[..k])
    {
      assert supported[..k + 1] == supported[..k] + [supported[k]];
      pending := pending - {supported[k]};
      k := k + 1;
      if !debug && pending == {} {
        break;
      }
    }
    ok := pending == {};
    if ok {
      forall name | name in required
        ensures name in supported
      {
        assert name !in pending;
        assert name in supported[..k];
      }
    } else {
      var name :| name in pending;
      assert name !in supported;
    }
  }

  // ---------------------------------------------------------------------
  // Device score

  datatype DeviceType = OtherDevice | IntegratedGpu | DiscreteGpu | VirtualGpu | Cpu

  datatype DeviceFeatures = DeviceFeatures(geometryShader: bool, fillModeNonSolid: bool, samplerAnisotropy: bool)

  /** What the driver reports about one device, together with the verdict
      of the queue-family search. */
  datatype PhysicalDevice = PhysicalDevice(
    deviceType: DeviceType,
    maxImageDimension2D: nat,
    features: DeviceFeatures,
    queuesComplete: bool,
    extensions: seq<string>,
    formats: seq<SurfaceFormat>,
    presentModes: seq<PresentMode>)

  function TypeBonus(t: DeviceType): nat
  {
    match t
    case DiscreteGpu => 10000
    case IntegratedGpu => 5000
    case VirtualGpu => 2500
    case _ => 0
  }

  /** A device the renderer can use at all: geometry shaders, complete
      queue families, every required extension, and at least one surface
      format and one present mode. */
  predicate Usable(dev: PhysicalDevice, required: seq<string>)
  {
    && dev.features.geometryShader
    && dev.queuesComplete
    && Supports(required, dev.extensions)
    && |dev.formats| > 0
    && |dev.presentModes| > 0
  }

  /** The score of a device: its type bonus plus its largest 2D image size,
      summed in 32 bits and stored in a signed int, then forced to zero by
      each failed check in turn. Wireframe and anisotropic filtering
      support only produce warnings. */
  function Score(dev: PhysicalDevice, required: seq<string>): (score: int)
    requires dev.maxImageDimension2D < Uint32Limit
    ensures !Usable(dev, required) ==> score == 0
    ensures Usable(dev, required) ==> score == AsInt32(TypeBonus(dev.deviceType) + dev.maxImageDimension2D)
    ensures Usable(dev, required) && TypeBonus(dev.deviceType) + dev.maxImageDimension2D <= Int32Max ==>
      score == TypeBonus(dev.deviceType) + dev.maxImageDimension2D
    ensures Int32Min <= score <= Int32Max
  {
    var typed := AsInt32(Wrap32(TypeBonus(dev.deviceType) + dev.maxImageDimension2D));
    var shaded := if !dev.features.geometryShader then 0 else typed;
    var queued := if !dev.queuesComplete then 0 else shaded;
    if !Supports(required, dev.extensions) then 0
    else if |dev.formats| == 0 || |dev.presentModes| == 0 then 0
    else queued
  }

  /** Missing wireframe or anisotropic-filtering support never changes the
      score. */
  lemma ScoreIgnoresOptionalFeatures(dev: PhysicalDevice, required: seq<string>, wireframe: bool, anisotropy: bool)
    requires dev.maxImageDimension2D < Uint32Limit
    ensures var other := dev.(features := dev.features.(fillModeNonSolid := wireframe, samplerAnisotropy := anisotropy));
      Score(other, required) == Score(dev, required)
  {
  }

  /** Among usable devices with the same image limit, a discrete GPU
      outscores an integrated one, which outscores a virtual one, which
      outscores any other kind. */
  lemma DeviceTypeRanking(d1: PhysicalDevice, d2: PhysicalDevice, required: seq<string>)
    requires d1.maxImageDimension2D == d2.maxImageDimension2D <= Int32Max - 10000
    requires Usable(d1, required) && Usable(d2, required)
    requires TypeBonus(d1.deviceType) > TypeBonus(d2.deviceType)
    ensures Score(d1, required) > Score(d2, required)
  {
  }
}
