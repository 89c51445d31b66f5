/** Wave displacement of the ocean surface. Each Gerstner wave adds, to
    every lattice vertex, its displacement at that vertex scaled by the
    lattice spacing; the surface's displacement is the sum over all waves,
    starting from zero. The trigonometric displacement function itself is
    a parameter: it is evaluated in single-precision floats with its own
    constants, and only the index and array structure around it is
    modelled. */
module Waves {
  import opened OceanGrid
  import opened MachineInts

  /** A Gerstner wave: travel direction, amplitude, wavelength and speed. */
  datatype Wave = Wave(direction: Vec2, amplitude: real, wavelength: real, speed: real)

  /** One vertex's displacement, as uploaded to the vertex shader. */
  datatype Displacement = Displacement(displacement: Vec3)

  const Zero: Vec3 := Vec3(0.0, 0.0, 0.0)

  function Add(p: Vec3, q: Vec3): Vec3
  {
    Vec3(p.x + q.x, p.y + q.y, p.z + q.z)
  }

  function Scale(k: real, p: Vec3): Vec3
  {
    Vec3(k * p.x, k * p.y, k * p.z)
  }

  /** A wave's displacement at a sample point and time: the Gerstner
      formula, left uninterpreted. */
  type DisplacementField = (Wave, real, Vec2) -> Vec3

  /** The point at which vertex i is sampled: its column and row in
      lattice-index units, not world units. */
  function SamplePoint(n: nat, i: nat): (p: Vec2)
    requires n > 0
    ensures 0.0 <= p.u < n as real
    ensures p.u == p.u.Floor as real && p.v == p.v.Floor as real
    ensures p.v * (n as real) + p.u == i as real
  {
    Vec2((i % n) as real, (i / n) as real)
  }

  /** What wave w adds to vertex i at time `time`: its displacement at the
      vertex's sample point, scaled by the lattice spacing tile / n. */
  function Contribution(field: DisplacementField, w: Wave, n: nat, tile: real, time: real, i: nat): Vec3
    requires n > 0
  {
    Scale(tile / n as real, field(w, time, SamplePoint(n, i)))
  }

  /** One wave applied on top of the displacements so far. The result has
      one entry per lattice vertex, whatever the input length; entry i is
      input entry i plus this wave's contribution at vertex i, every entry
      taken at the same instant. */
  method ApplyWave(field: DisplacementField, w: Wave, current: seq<Displacement>, n: nat, tile: real, time: real)
    returns (next: seq<Displacement>)
    requires n * n < Uint32Limit && n * n <= |current|
    ensures |next| == n * n
    ensures forall i :: 0 <= i < |next| ==>
      n > 0 && next[i].displacement == Add(current[i].displacement, Contribution(field, w, n, tile, time, i))
  {
    var size := n * n;
    var step := if n > 0 then tile / n as real else 0.0;
    next := seq(size, _ => Displacement(Zero));
    var i := 0;
    while i < size
      invariant i <= size && |next| == size
      invariant forall k :: 0 <= k < i ==>
        n > 0 && next[k].displacement == Add(current[k].displacement, Contribution(field, w, n, tile, time, k))
    {
      var x0 := Vec2((i % n) as real, (i / n) as real);
      var displacement := field(w, time, x0);
      next := next[i := Displacement(Add(current[i].displacement, Scale(step, displacement)))];
      i := i + 1;
    }
  }

  /** The reference sum: the contributions of the given waves at vertex i,
      added in list order onto zero. */
  function Superposed(field: DisplacementField, waves: seq<Wave>, n: nat, tile: real, time: real, i: nat): Vec3
    requires |waves| == 0 || n > 0
  {
    if |waves| == 0 then Zero
    else Add(Superposed(field, waves[..|waves| - 1], n, tile, time, i),
             Contribution(field, waves[|waves| - 1], n, tile, time, i))
  }

  /** All waves applied in turn to a zero-seeded array with one entry per
      vertex. With no waves the result is that array of zeros; otherwise it
      has one entry per lattice vertex, each the sum of every wave's
      contribution there. */
  method UpdateWaves(field: DisplacementField, waves: seq<Wave>, vertexCount: nat, n: nat, tile: real, time: real)
    returns (current: seq<Displacement>)
    requires n * n < Uint32Limit
    requires |waves| > 0 ==> n * n <= vertexCount
    ensures |current| == if |waves| == 0 then vertexCount else n * n
    ensures |waves| == 0 ==> forall i :: 0 <= i < |current| ==> current[i] == Displacement(Zero)
    ensures forall i :: 0 <= i < |current| ==>
      (|waves| == 0 || n > 0) && current[i].displacement == Superposed(field, waves, n, tile, time, i)
  {
    current := seq(vertexCount, _ => Displacement(Zero));
    var k := 0;
    while k < |waves|
      invariant k <= |waves|
      invariant |current| == if k == 0 then vertexCount else n * n
      invariant forall i :: 0 <= i < |current| ==>
        (k == 0 || n > 0) && current[i].displacement == Superposed(field, waves[..k], n, tile, time, i)
    {
      current := ApplyWave(field, waves[k], current, n, tile, time);
      assert waves[..k + 1][..k] == waves[..k];
      k := k + 1;
    }
    assert waves[..k] == waves;
  }

  /** Applying two lists of waves one after the other adds their
      displacements. */
  lemma {:induction false} SuperposedConcat(field: DisplacementField, ws1: seq<Wave>, ws2: seq<Wave>, n: nat, tile: real, time: real, i: nat)
    requires n > 0
    ensures Superposed(field, ws1 + ws2, n, tile, time, i)
         == Add(Superposed(field, ws1, n, tile, time, i), Superposed(field, ws2, n, tile, time, i))
    decreases |ws2|
  {
    if |ws2| == 0 {
      assert ws1 + ws2 == ws1;
    } else {
      var last := |ws2| - 1;
      assert (ws1 + ws2)[..|ws1 + ws2| - 1] == ws1 + ws2[..last];
      SuperposedConcat(field, ws1, ws2[..last], n, tile, time, i);
    }
  }

  /** Taking one wave out of the middle of a list: its contribution is
      added to the sum over the rest. */
  lemma SuperposedWithout(field: DisplacementField, before: seq<Wave>, w: Wave, after: seq<Wave>, n: nat, tile: real, time: real, i: nat)
    requires n > 0
    ensures Superposed(field, before + [w] + after, n, tile, time, i)
         == Add(Superposed(field, before + after, n, tile, time, i), Contribution(field, w, n, tile, time, i))
  {
    SuperposedConcat(field, before + [w], after, n, tile, time, i);
    SuperposedConcat(field, before, [w], n, tile, time, i);
    SuperposedConcat(field, before, after, n, tile, time, i);
    assert [w][..0] == [];
  }

  /** A wave occurring in a list that is a rearrangement of init + [w]
      splits that list into a part before it and a part after it that
      together rearrange init. */
  lemma SplitAtWave(init: seq<Wave>, w: Wave, ws: seq<Wave>) returns (k: nat)
    requires multiset(init + [w]) == multiset(ws)
    ensures k < |ws| && ws[k] == w && ws == ws[..k] + [w] + ws[k + 1..]
    ensures multiset(init) == multiset(ws[..k] + ws[k + 1..])
  {
    assert w in multiset(ws);
    k :| 0 <= k < |ws| && ws[k] == w;
    var before, after := ws[..k], ws[k + 1..];
    assert ws == before + [w] + after;
    calc {
      multiset(init) + multiset{w};
      multiset(init + [w]);
      multiset(ws);
      multiset(before) + multiset{w} + multiset(after);
      multiset(before + after) + multiset{w};
    }
    forall x: Wave
      ensures multiset(init)[x] == multiset(before + after)[x]
    {
      assert (multiset(init) + multiset{w})[x] == (multiset(before + after) + multiset{w})[x];
    }
  }

  /** The order of the wave list does not matter: any rearrangement of the
      waves gives the same displacement (in exact arithmetic; the
      renderer's float sums may round differently). */
  lemma {:induction false} WaveOrderIrrelevant(field: DisplacementField, ws1: seq<Wave>, ws2: seq<Wave>, n: nat, tile: real, time: real, i: nat)
    requires n > 0 && multiset(ws1) == multiset(ws2)
    ensures Superposed(field, ws1, n, tile, time, i) == Superposed(field, ws2, n, tile, time, i)
    decreases |ws1|
  {
    if |ws1| == 0 {
      assert |ws2| == |multiset(ws2)| == 0;
    } else {
      var init, w := ws1[..|ws1| - 1], ws1[|ws1| - 1];
      assert ws1 == init + [w];
      var k := SplitAtWave(init, w, ws2);
      WaveOrderIrrelevant(field, init, ws2[..k] + ws2[k + 1..], n, tile, time, i);
      SuperposedWithout(field, ws2[..k], w, ws2[k + 1..], n, tile, time, i);
    }
  }
}
