/** The ocean resolution the application starts with. Debug builds use a
    fixed resolution; other builds take it from the user, reject values too
    small for a grid, and ask for confirmation of very large ones. The
    console prompts become parameters. */
module AppConfig {
  import opened Outcomes
  import opened MachineInts
  import opened OceanGrid
  import opened LatticeArith

  /** The resolution debug builds use without asking. */
  const DebugResolution: nat := 64

  /** From this resolution on the user is warned and asked to confirm. */
  const SlowResolution: nat := 2048

  /** ASCII lower-casing, as the confirmation answer is compared. */
  function ToLower(c: char): char
  {
    if 'A' <= c <= 'Z' then (c as int + 32) as char else c
  }

  /** The resolution check as the program performs it. */
  function ConfigureResolution(debug: bool, requested: nat, answer: char): (r: Outcome<nat>)
    requires requested < Uint32Limit
    ensures r.Ok? ==> r.value >= 2
    ensures debug ==> r == Ok(DebugResolution)
    ensures !debug && requested <= 1 ==> r == Fail(UnfitResolution)
    ensures !debug && requested >= SlowResolution && answer != 'y' && answer != 'Y' ==> r == Fail(UserAborted)
    ensures !debug && requested >= 2 && (requested < SlowResolution || answer == 'y' || answer == 'Y') ==>
      r == Ok(requested)
  {
    if debug then Ok(DebugResolution)
    else if requested <= 1 then Fail(UnfitResolution)
    else if requested >= SlowResolution && ToLower(answer) != 'y' then Fail(UserAborted)
    else Ok(requested)
  }

  /** The vertex count as the mesh generator and the wave pass compute it:
      resolution times resolution in 32-bit unsigned arithmetic. */
  function SquareAsWritten(n: nat): (size: nat)
    ensures size < Uint32Limit
    ensures (n * n - size) % Uint32Limit == 0
    ensures n * n < Uint32Limit ==> size == n * n
  {
    Wrap32(n * n)
  }

  /** A confirmed resolution of 65536 is accepted, but its square wraps to
      zero, so the mesh would have no vertices at all. */
  lemma ConfirmedResolutionCanWrap()
    ensures ConfigureResolution(false, 65536, 'y') == Ok(65536)
    ensures SquareAsWritten(65536) == 0
  {
    assert 65536 * 65536 == Uint32Limit;
  }

  /** The largest resolution whose square fits in 32 bits. */
  const MaxSquareRoot: nat := 0xFFFF

  /** A resolution's square fits in 32 bits exactly when the resolution is
      at most MaxSquareRoot. */
  lemma SquareFits(n: nat)
    ensures n * n < Uint32Limit <==> n <= MaxSquareRoot
  {
    if n <= MaxSquareRoot {
      MulMonotone(n, MaxSquareRoot, n);
      MulMonotone(n, MaxSquareRoot, MaxSquareRoot);
    } else {
      MulMonotone(MaxSquareRoot + 1, n, n);
      MulMonotone(MaxSquareRoot + 1, n, MaxSquareRoot + 1);
    }
  }

  /** The largest resolution the program handles without overflow: its
      square fits in 32 bits, and neither the index walk's signed loop
      counter (one step per triangle) nor the wave pass's (one step per
      vertex) passes the largest 32-bit signed int. */
  const MaxResolution: nat := 0x8000

  /** The index walk's counter ends at the number of triangles, a third of
      the index count; that stays within the signed 32-bit range exactly
      when the resolution is at most MaxResolution. */
  lemma WalkCounterFits(n: nat)
    ensures |QuadEnumeration(n)| <= 3 * Int32Max <==> n <= MaxResolution
  {
    EnumerationLength(n);
    if n >= 2 {
      var m := n - 1;
      assert |QuadEnumeration(n)| == 6 * (m * m);
      if m <= MaxResolution - 1 {
        MulMonotone(m, MaxResolution - 1, m);
        MulMonotone(m, MaxResolution - 1, MaxResolution - 1);
      } else {
        MulMonotone(MaxResolution, m, m);
        MulMonotone(MaxResolution, m, MaxResolution);
      }
    }
  }

  /** The check with the missing bound: a resolution the program cannot
      handle without overflow is rejected as unfit, like one that is too
      small. */
  function ConfigureResolutionChecked(debug: bool, requested: nat, answer: char): (r: Outcome<nat>)
    requires requested < Uint32Limit
    ensures r.Ok? ==> 2 <= r.value <= MaxResolution
    ensures !debug && requested > MaxResolution ==> r == Fail(UnfitResolution)
    ensures debug || requested <= MaxResolution ==> r == ConfigureResolution(debug, requested, answer)
  {
    if !debug && requested > MaxResolution then Fail(UnfitResolution)
    else ConfigureResolution(debug, requested, answer)
  }

  /** Every resolution the corrected check accepts gives the mesh generator
      and the wave pass their true vertex count, and keeps both signed loop
      counters in range: the wave pass counts up to the vertex count, the
      index walk up to a third of the index count. */
  lemma CheckedResolutionFitsGrid(debug: bool, requested: nat, answer: char)
    requires requested < Uint32Limit
    ensures var r := ConfigureResolutionChecked(debug, requested, answer);
      r.Ok? ==> && r.value * r.value < Uint32Limit
                && SquareAsWritten(r.value) == r.value * r.value
                && r.value * r.value <= Int32Max
                && |QuadEnumeration(r.value)| <= 3 * Int32Max
  {
    var r := ConfigureResolutionChecked(debug, requested, answer);
    if r.Ok? {
      SquareFits(r.value);
      WalkCounterFits(r.value);
      MulMonotone(r.value, MaxResolution, r.value);
      MulMonotone(r.value, MaxResolution, MaxResolution);
    }
  }

  /** Every resolution the corrected check accepts yields a well-formed mesh
      with at least one lattice square, built without 32-bit wrap-around:
      every index names a vertex and every triangle joins neighbouring
      vertices. */
  lemma AcceptedResolutionHasTriangles(debug: bool, requested: nat, answer: char)
    requires requested < Uint32Limit
    ensures var r := ConfigureResolutionChecked(debug, requested, answer);
      r.Ok? ==> && r.value * r.value < Uint32Limit
                && |QuadEnumeration(r.value)| >= 6
                && InGrid(r.value, QuadEnumeration(r.value))
                && Local(r.value, QuadEnumeration(r.value))
  {
    var r := ConfigureResolutionChecked(debug, requested, answer);
    if r.Ok? {
      SquareFits(r.value);
      EnumerationLength(r.value);
      MulMonotone(1, r.value - 1, r.value - 1);
      EnumerationInGridAndLocal(r.value);
    }
  }
}
