/**
 Surface extraction from a binary volume: each inside voxel emits a quad towards every
 outside neighbour, and each quad becomes two triangles. The triangles form a closed,
 outward oriented surface that encloses exactly the inside voxels.
 */
module VoxelSurface {
  import opened Arithmetic

  datatype Voxel = Voxel(x: int, y: int, z: int)

  datatype Point = Point(x: real, y: real, z: real)

  /** A face points to a neighbour; its corners are offsets from the voxel centre in cells. */
  datatype FaceDef = FaceDef(dx: int, dy: int, dz: int, nx: int, ny: int, nz: int, corners: seq<Point>)

  const FACES: seq<FaceDef> := [
    FaceDef(1, 0, 0, 1, 0, 0, [Point(0.5, -0.5, -0.5), Point(0.5, 0.5, -0.5), Point(0.5, 0.5, 0.5), Point(0.5, -0.5, 0.5)]),
    FaceDef(-1, 0, 0, -1, 0, 0, [Point(-0.5, -0.5, 0.5), Point(-0.5, 0.5, 0.5), Point(-0.5, 0.5, -0.5), Point(-0.5, -0.5, -0.5)]),
    FaceDef(0, 1, 0, 0, 1, 0, [Point(-0.5, 0.5, -0.5), Point(-0.5, 0.5, 0.5), Point(0.5, 0.5, 0.5), Point(0.5, 0.5, -0.5)]),
    FaceDef(0, -1, 0, 0, -1, 0, [Point(-0.5, -0.5, 0.5), Point(-0.5, -0.5, -0.5), Point(0.5, -0.5, -0.5), Point(0.5, -0.5, 0.5)]),
    FaceDef(0, 0, 1, 0, 0, 1, [Point(-0.5, -0.5, 0.5), Point(0.5, -0.5, 0.5), Point(0.5, 0.5, 0.5), Point(-0.5, 0.5, 0.5)]),
    FaceDef(0, 0, -1, 0, 0, -1, [Point(0.5, -0.5, -0.5), Point(-0.5, -0.5, -0.5), Point(-0.5, 0.5, -0.5), Point(0.5, 0.5, -0.5)])
  ]

  type Direction = d: nat | d < 6 witness 0

  /** The face definitions come in opposite pairs. */
  function Opposite(d: Direction): Direction {
    if d % 2 == 0 then d + 1 else d - 1
  }

  function Neighbour(v: Voxel, d: Direction): Voxel {
    Voxel(v.x + FACES[d].dx, v.y + FACES[d].dy, v.z + FACES[d].dz)
  }

  // ---- The volume as a flat array -----------------------------------------------------

  predicate InCube(n: nat, v: Voxel) {
    0 <= v.x < n && 0 <= v.y < n && 0 <= v.z < n
  }

  function IndexOf(n: nat, v: Voxel): int {
    v.x + n * (v.y + n * v.z)
  }

  function VoxelAt(n: nat, i: nat): Voxel
    requires n > 0
  {
    Voxel(i % n, i / n % n, i / n / n)
  }

  lemma FlatInRange(n: nat, a: int, b: int, rows: nat)
    requires 0 <= a < n && 0 <= b < rows
    ensures 0 <= a + n * b < n * rows
    ensures (a + n * b) / n == b && (a + n * b) % n == a
  {
    MulMonotone(n, n, 0, b);
    MulMonotone(n, n, b + 1, rows);
    assert n * (b + 1) == n * b + n;
    DivUnique(a + n * b, n, b, a);
  }

  lemma IndexInRange(n: nat, v: Voxel)
    requires InCube(n, v)
    ensures 0 <= IndexOf(n, v) < n * n * n
    ensures n > 0 && VoxelAt(n, IndexOf(n, v)) == v
  {
    FlatInRange(n, v.y, v.z, n);
    FlatInRange(n, v.x, v.y + n * v.z, n * n);
    assert n * (n * n) == n * n * n;
  }

  lemma VoxelInCube(n: nat, i: nat)
    requires n > 0 && i < n * n * n
    ensures InCube(n, VoxelAt(n, i)) && IndexOf(n, VoxelAt(n, i)) == i
  {
    DivBelow(i, n, n * n);
    DivBelow(i / n, n, n);
    assert i == n * (i / n) + i % n;
    assert i / n == n * (i / n / n) + i / n % n;
  }

  /** Outside the cube nothing is inside. */
  predicate Inside(n: nat, vol: seq<bool>, v: Voxel) {
    InCube(n, v) && 0 <= IndexOf(n, v) < |vol| && vol[IndexOf(n, v)]
  }

  predicate Exposed(n: nat, vol: seq<bool>, v: Voxel, d: Direction) {
    Inside(n, vol, v) && !Inside(n, vol, Neighbour(v, d))
  }

  predicate Shared(n: nat, vol: seq<bool>, v: Voxel, d: Direction) {
    Inside(n, vol, v) && Inside(n, vol, Neighbour(v, d))
  }

  // ---- The faces in emission order ----------------------------------------------------

  datatype Face = Face(voxel: Voxel, dir: Direction)

  function VoxelFaces(n: nat, vol: seq<bool>, v: Voxel, d: nat): seq<Face>
    requires d <= 6
  {
    if d == 0 then []
    else VoxelFaces(n, vol, v, d - 1) + (if Exposed(n, vol, v, d - 1) then [Face(v, d - 1)] else [])
  }

  /** The faces emitted for the first `i` voxels of the array. */
  function FacesUpTo(n: nat, vol: seq<bool>, i: nat): seq<Face>
    requires n > 0
  {
    if i == 0 then [] else FacesUpTo(n, vol, i - 1) + VoxelFaces(n, vol, VoxelAt(n, i - 1), 6)
  }

  function SurfaceFaces(n: nat, vol: seq<bool>): seq<Face>
    requires n > 0
  {
    FacesUpTo(n, vol, n * n * n)
  }

  lemma {:induction false} VoxelFacesOnce(n: nat, vol: seq<bool>, v: Voxel, d: nat, f: Face)
    requires d <= 6
    ensures multiset(VoxelFaces(n, vol, v, d))[f] ==
            if f.voxel == v && f.dir < d && Exposed(n, vol, v, f.dir) then 1 else 0
  {
    hide Exposed;
    if d > 0 {
      VoxelFacesOnce(n, vol, v, d - 1, f);
    }
  }

  lemma {:induction false} FacesUpToOnce(n: nat, vol: seq<bool>, i: nat, f: Face)
    requires n > 0 && i <= n * n * n
    ensures multiset(FacesUpTo(n, vol, i))[f] ==
            if Exposed(n, vol, f.voxel, f.dir) && IndexOf(n, f.voxel) < i then 1 else 0
  {
    hide VoxelAt, IndexOf, Exposed, VoxelFaces;
    if InCube(n, f.voxel) {
      IndexInRange(n, f.voxel);
    }
    if Exposed(n, vol, f.voxel, f.dir) {
      ExposedInCube(n, vol, f);
    }
    if i > 0 {
      var v := VoxelAt(n, i - 1);
      FacesUpToOnce(n, vol, i - 1, f);
      VoxelFacesOnce(n, vol, v, 6, f);
      VoxelInCube(n, i - 1);
    }
  }

  lemma ExposedInCube(n: nat, vol: seq<bool>, f: Face)
    requires Exposed(n, vol, f.voxel, f.dir)
    ensures InCube(n, f.voxel)
  {
  }

  /** Each face between an inside voxel and an outside neighbour is emitted exactly once, and no other face is. */
  lemma EachFaceOnce(n: nat, vol: seq<bool>, f: Face)
    requires n > 0
    ensures multiset(SurfaceFaces(n, vol))[f] == if Exposed(n, vol, f.voxel, f.dir) then 1 else 0
  {
    FacesUpToOnce(n, vol, n * n * n, f);
    if InCube(n, f.voxel) {
      IndexInRange(n, f.voxel);
    }
  }

  // ---- Weighing the surface -----------------------------------------------------------

  /** A quantity attached to each oriented face. */
  type Weight = (Voxel, Direction) -> real

  function FaceTotal(faces: seq<Face>, w: Weight): real {
    if faces == [] then 0.0
    else FaceTotal(faces[..|faces| - 1], w) + w(faces[|faces| - 1].voxel, faces[|faces| - 1].dir)
  }

  lemma {:induction false} FaceTotalAppend(a: seq<Face>, b: seq<Face>, w: Weight)
    ensures FaceTotal(a + b, w) == FaceTotal(a, w) + FaceTotal(b, w)
  {
    if b == [] {
      assert a + b == a;
    } else {
      FaceTotalAppend(a, b[..|b| - 1], w);
      assert (a + b)[..|a + b| - 1] == a + b[..|b| - 1];
    }
  }

  function DirSum(g: Direction -> real): real {
    g(0) + g(1) + g(2) + g(3) + g(4) + g(5)
  }

  /** The weight of all six faces of a voxel. */
  function SixFaces(w: Weight, v: Voxel): real {
    DirSum((d: Direction) => w(v, d))
  }

  function ExposedWeight(n: nat, vol: seq<bool>, w: Weight, v: Voxel): Direction -> real {
    (d: Direction) => if Exposed(n, vol, v, d) then w(v, d) else 0.0
  }

  lemma VoxelFacesTotal(n: nat, vol: seq<bool>, v: Voxel, w: Weight)
    ensures FaceTotal(VoxelFaces(n, vol, v, 6), w) == DirSum(ExposedWeight(n, vol, w, v))
  {
    VoxelFacesStep(n, vol, v, w, 1);
    VoxelFacesStep(n, vol, v, w, 2);
    VoxelFacesStep(n, vol, v, w, 3);
    VoxelFacesStep(n, vol, v, w, 4);
    VoxelFacesStep(n, vol, v, w, 5);
    VoxelFacesStep(n, vol, v, w, 6);
    assert VoxelFaces(n, vol, v, 0) == [];
  }

  lemma VoxelFacesStep(n: nat, vol: seq<bool>, v: Voxel, w: Weight, d: nat)
    requires 0 < d <= 6
    ensures FaceTotal(VoxelFaces(n, vol, v, d), w) ==
            FaceTotal(VoxelFaces(n, vol, v, d - 1), w) + ExposedWeight(n, vol, w, v)(d - 1)
  {
    hide Exposed;
    if Exposed(n, vol, v, d - 1) {
      var f := [Face(v, d - 1)];
      FaceTotalAppend(VoxelFaces(n, vol, v, d - 1), f, w);
      assert f[..0] == [];
      assert FaceTotal(f, w) == w(v, d - 1);
    } else {
      assert VoxelFaces(n, vol, v, d) == VoxelFaces(n, vol, v, d - 1);
    }
  }

  function SurfaceWeight(n: nat, vol: seq<bool>, w: Weight): nat -> real
    requires n > 0
  {
    (i: nat) => DirSum(ExposedWeight(n, vol, w, VoxelAt(n, i)))
  }

  lemma {:induction false} FacesUpToTotal(n: nat, vol: seq<bool>, i: nat, w: Weight)
    requires n > 0
    ensures FaceTotal(FacesUpTo(n, vol, i), w) == Total(SurfaceWeight(n, vol, w), i)
  {
    if i > 0 {
      FacesUpToTotal(n, vol, i - 1, w);
      VoxelFacesTotal(n, vol, VoxelAt(n, i - 1), w);
      FaceTotalAppend(FacesUpTo(n, vol, i - 1), VoxelFaces(n, vol, VoxelAt(n, i - 1), 6), w);
    }
  }

  /** The weight of all six faces of every inside voxel. */
  function WholeWeight(n: nat, vol: seq<bool>, w: Weight): nat -> real
    requires n > 0
  {
    (i: nat) => if Inside(n, vol, VoxelAt(n, i)) then SixFaces(w, VoxelAt(n, i)) else 0.0
  }

  /** The weight of the hidden faces towards one direction. */
  function SharedWeight(n: nat, vol: seq<bool>, w: Weight, d: Direction): nat -> real
    requires n > 0
  {
    (i: nat) => if Shared(n, vol, VoxelAt(n, i), d) then w(VoxelAt(n, i), d) else 0.0
  }

  function SharedTotal(n: nat, vol: seq<bool>, w: Weight, d: Direction): real
    requires n > 0
  {
    Total(SharedWeight(n, vol, w, d), n * n * n)
  }

  /** What is exposed is the whole without what is hidden. */
  lemma ExposedPlusShared(n: nat, vol: seq<bool>, w: Weight, m: nat)
    requires n > 0
    ensures Total(SurfaceWeight(n, vol, w), m) +
            DirSum((d: Direction) => Total(SharedWeight(n, vol, w, d), m)) == Total(WholeWeight(n, vol, w), m)
  {
    hide Inside, VoxelAt, Neighbour, SharedSoFar, SharedWeight, SurfaceWeight, WholeWeight;
    var f0 := SurfaceWeight(n, vol, w);
    var f1 := SharedSoFar(n, vol, w, 0, f0);
    var f2 := SharedSoFar(n, vol, w, 1, f1);
    var f3 := SharedSoFar(n, vol, w, 2, f2);
    var f4 := SharedSoFar(n, vol, w, 3, f3);
    var f5 := SharedSoFar(n, vol, w, 4, f4);
    var f6 := SharedSoFar(n, vol, w, 5, f5);
    AddShared(n, vol, w, 0, f0, m);
    AddShared(n, vol, w, 1, f1, m);
    AddShared(n, vol, w, 2, f2, m);
    AddShared(n, vol, w, 3, f3, m);
    AddShared(n, vol, w, 4, f4, m);
    AddShared(n, vol, w, 5, f5, m);
    forall i: nat | i < m
      ensures f6(i) == WholeWeight(n, vol, w)(i)
    {
      SharedAll(n, vol, w, i);
    }
    TotalSame(f6, WholeWeight(n, vol, w), m);
  }

  lemma SharedAll(n: nat, vol: seq<bool>, w: Weight, i: nat)
    requires n > 0
    ensures var f := SurfaceWeight(n, vol, w);
            SharedSoFar(n, vol, w, 5, SharedSoFar(n, vol, w, 4, SharedSoFar(n, vol, w, 3,
              SharedSoFar(n, vol, w, 2, SharedSoFar(n, vol, w, 1, SharedSoFar(n, vol, w, 0, f))))))(i) ==
            WholeWeight(n, vol, w)(i)
  {
    hide Inside, VoxelAt, Neighbour;
    var v := VoxelAt(n, i);
    var f0 := SurfaceWeight(n, vol, w);
    var f1 := SharedSoFar(n, vol, w, 0, f0);
    var f2 := SharedSoFar(n, vol, w, 1, f1);
    var f3 := SharedSoFar(n, vol, w, 2, f2);
    var f4 := SharedSoFar(n, vol, w, 3, f3);
    var f5 := SharedSoFar(n, vol, w, 4, f4);
    assert f2(i) == f0(i) + SharedWeight(n, vol, w, 0)(i) + SharedWeight(n, vol, w, 1)(i);
    assert f4(i) == f2(i) + SharedWeight(n, vol, w, 2)(i) + SharedWeight(n, vol, w, 3)(i);
    assert SharedSoFar(n, vol, w, 5, f5)(i) == f4(i) + SharedWeight(n, vol, w, 4)(i) + SharedWeight(n, vol, w, 5)(i);
    assert f0(i) == DirSum(ExposedWeight(n, vol, w, v));
    SharedOrExposed(n, vol, w, 0, i);
    SharedOrExposed(n, vol, w, 1, i);
    SharedOrExposed(n, vol, w, 2, i);
    SharedOrExposed(n, vol, w, 3, i);
    SharedOrExposed(n, vol, w, 4, i);
    SharedOrExposed(n, vol, w, 5, i);
  }

  lemma SharedOrExposed(n: nat, vol: seq<bool>, w: Weight, d: Direction, i: nat)
    requires n > 0
    ensures var v := VoxelAt(n, i);
            SharedWeight(n, vol, w, d)(i) + ExposedWeight(n, vol, w, v)(d) == (if Inside(n, vol, v) then w(v, d) else 0.0)
  {
    hide IndexOf, VoxelAt;
    var v := VoxelAt(n, i);
    assert Shared(n, vol, v, d) || Exposed(n, vol, v, d) <==> Inside(n, vol, v);
    assert ExposedWeight(n, vol, w, v)(d) == if Exposed(n, vol, v, d) then w(v, d) else 0.0;
    assert SharedWeight(n, vol, w, d)(i) == if Shared(n, vol, v, d) then w(v, d) else 0.0;
  }

  function SharedSoFar(n: nat, vol: seq<bool>, w: Weight, d: Direction, f: nat -> real): nat -> real
    requires n > 0
  {
    (i: nat) => f(i) + SharedWeight(n, vol, w, d)(i)
  }

  lemma AddShared(n: nat, vol: seq<bool>, w: Weight, d: Direction, f: nat -> real, m: nat)
    requires n > 0
    ensures Total(SharedSoFar(n, vol, w, d, f), m) == Total(f, m) + Total(SharedWeight(n, vol, w, d), m)
  {
    TotalPlus(f, SharedWeight(n, vol, w, d), SharedSoFar(n, vol, w, d, f), m);
  }

  /** The distance in the array to the neighbour in a positive direction. */
  function Stride(n: nat, d: Direction): nat {
    if d < 2 then 1 else if d < 4 then n else n * n
  }

  /** The neighbour across a face sees the same face from the other side. */
  function AcrossWeight(n: nat, vol: seq<bool>, w: Weight, d: Direction): nat -> real
    requires n > 0
  {
    (i: nat) => if Shared(n, vol, VoxelAt(n, i), d) then w(Neighbour(VoxelAt(n, i), d), Opposite(d)) else 0.0
  }

  lemma StrideBack(n: nat, d: Direction)
    ensures Stride(n, Opposite(d)) == Stride(n, d)
  {
  }

  function Shifted(n: nat, i: int, d: Direction): int {
    if d % 2 == 0 then i + Stride(n, d) else i - Stride(n, d)
  }

  lemma Distribute(n: int, a: int, b: int)
    ensures n * (a + b) == n * a + n * b
  {
  }

  lemma NeighbourIndex(n: nat, v: Voxel, d: Direction)
    ensures IndexOf(n, Neighbour(v, d)) == Shifted(n, IndexOf(n, v), d)
    ensures Neighbour(Neighbour(v, d), Opposite(d)) == v
  {
    var f := FACES[d];
    var row := v.y + n * v.z;
    Distribute(n, v.z, f.dz);
    Distribute(n, row, f.dy + n * f.dz);
    Distribute(n, f.dy, n * f.dz);
  }

  /** A neighbour within the cube is found one stride away, and leads back. */
  lemma NeighbourAt(n: nat, i: nat, d: Direction)
    requires n > 0 && i < n * n * n && InCube(n, Neighbour(VoxelAt(n, i), d))
    ensures 0 <= Shifted(n, i, d) < n * n * n
    ensures VoxelAt(n, Shifted(n, i, d)) == Neighbour(VoxelAt(n, i), d)
    ensures Neighbour(Neighbour(VoxelAt(n, i), d), Opposite(d)) == VoxelAt(n, i)
  {
    hide VoxelAt, Neighbour, Shifted, IndexOf;
    VoxelInCube(n, i);
    NeighbourIndex(n, VoxelAt(n, i), d);
    IndexInRange(n, Neighbour(VoxelAt(n, i), d));
  }

  lemma SharedCube(n: nat, vol: seq<bool>, v: Voxel, d: Direction)
    requires Shared(n, vol, v, d)
    ensures InCube(n, Neighbour(v, d))
  {
  }

  /** Two voxels share a face from either side alike. */
  lemma SharedBack(n: nat, vol: seq<bool>, v: Voxel, d: Direction)
    requires Neighbour(Neighbour(v, d), Opposite(d)) == v
    ensures Shared(n, vol, v, d) == Shared(n, vol, Neighbour(v, d), Opposite(d))
  {
  }

  lemma StrideFits(n: nat, d: Direction)
    requires n > 0
    ensures Stride(n, d) <= n * n * n
  {
    MulMonotone(1, n, 1, n);
    MulMonotone(1, n, n, n);
    MulMonotone(1, n, n * n, n * n);
  }

  /** Array positions `i` and `i + stride` are neighbours whenever either has the other in the cube. */
  lemma AcrossShifts(n: nat, vol: seq<bool>, w: Weight, d: Direction, i: nat)
    requires n > 0 && d % 2 == 0 && i + Stride(n, d) < n * n * n
    ensures AcrossWeight(n, vol, w, d)(i) == SharedWeight(n, vol, w, Opposite(d))(i + Stride(n, d))
  {
    hide VoxelAt, Neighbour, Stride, InCube, Shared;
    StrideBack(n, d);
    var v, u := VoxelAt(n, i), VoxelAt(n, i + Stride(n, d));
    if Shared(n, vol, v, d) {
      SharedCube(n, vol, v, d);
      NeighbourAt(n, i, d);
      SharedBack(n, vol, v, d);
    } else if Shared(n, vol, u, Opposite(d)) {
      SharedCube(n, vol, u, Opposite(d));
      NeighbourAt(n, i + Stride(n, d), Opposite(d));
      SharedBack(n, vol, u, Opposite(d));
    }
  }

  lemma AcrossVanishes(n: nat, vol: seq<bool>, w: Weight, d: Direction, i: nat)
    requires n > 0 && d % 2 == 0 && i < n * n * n
    ensures i < Stride(n, d) ==> SharedWeight(n, vol, w, Opposite(d))(i) == 0.0
    ensures i + Stride(n, d) >= n * n * n ==> AcrossWeight(n, vol, w, d)(i) == 0.0
  {
    hide VoxelAt, Neighbour, Stride, InCube, Shared;
    StrideBack(n, d);
    var v := VoxelAt(n, i);
    if Shared(n, vol, v, d) {
      SharedCube(n, vol, v, d);
      NeighbourAt(n, i, d);
    }
    if Shared(n, vol, v, Opposite(d)) {
      SharedCube(n, vol, v, Opposite(d));
      NeighbourAt(n, i, Opposite(d));
    }
  }

  /** Hidden faces towards one side, counted from the voxels on the other side. */
  lemma SharedBothSides(n: nat, vol: seq<bool>, w: Weight, d: Direction)
    requires n > 0 && d % 2 == 0
    ensures Total(AcrossWeight(n, vol, w, d), n * n * n) == SharedTotal(n, vol, w, Opposite(d))
  {
    var s, m := Stride(n, d), n * n * n;
    var f, g := SharedWeight(n, vol, w, Opposite(d)), AcrossWeight(n, vol, w, d);
    StrideFits(n, d);
    hide Stride, AcrossWeight, SharedWeight;
    forall i: nat | i < m
      ensures i < s ==> f(i) == 0.0
      ensures i >= m - s ==> g(i) == 0.0
      ensures i < m - s ==> g(i) == f(i + s)
    {
      AcrossVanishes(n, vol, w, d, i);
      if i < m - s {
        AcrossShifts(n, vol, w, d, i);
      }
    }
    TotalTail(g, m - s, m);
    TotalShift(f, g, s, m - s);
  }

  /** What is exposed plus what adjacent voxels hide from each other is the whole. */
  lemma SurfaceBalance(n: nat, vol: seq<bool>, w: Weight)
    requires n > 0
    ensures FaceTotal(SurfaceFaces(n, vol), w) +
            SharedTotal(n, vol, w, 0) + Total(AcrossWeight(n, vol, w, 0), n * n * n) +
            SharedTotal(n, vol, w, 2) + Total(AcrossWeight(n, vol, w, 2), n * n * n) +
            SharedTotal(n, vol, w, 4) + Total(AcrossWeight(n, vol, w, 4), n * n * n) ==
            Total(WholeWeight(n, vol, w), n * n * n)
  {
    hide AcrossWeight, SharedWeight, SurfaceWeight, WholeWeight, FaceTotal, FacesUpTo;
    FacesUpToTotal(n, vol, n * n * n, w);
    ExposedPlusShared(n, vol, w, n * n * n);
    SharedBothSides(n, vol, w, 0);
    SharedBothSides(n, vol, w, 2);
    SharedBothSides(n, vol, w, 4);
  }

  /** The two sides of a face cancel. */
  ghost predicate Antisymmetric(w: Weight) {
    forall v, d: Direction :: d % 2 == 0 ==> w(Neighbour(v, d), Opposite(d)) == -w(v, d)
  }

  lemma SharedCancels(n: nat, vol: seq<bool>, w: Weight, d: Direction)
    requires n > 0 && Antisymmetric(w) && d % 2 == 0
    ensures SharedTotal(n, vol, w, d) + Total(AcrossWeight(n, vol, w, d), n * n * n) == 0.0
  {
    hide VoxelAt, Neighbour, Shared, Inside;
    var zero := (i: nat) => 0.0;
    TotalZero(zero, n * n * n);
    forall i: nat
      ensures SharedWeight(n, vol, w, d)(i) + AcrossWeight(n, vol, w, d)(i) == 0.0
    {
      var v := VoxelAt(n, i);
      assert w(Neighbour(v, d), Opposite(d)) == -w(v, d);
      assert SharedWeight(n, vol, w, d)(i) == if Shared(n, vol, v, d) then w(v, d) else 0.0;
    }
    TotalPlus(SharedWeight(n, vol, w, d), AcrossWeight(n, vol, w, d), zero, n * n * n);
  }

  /** A quantity that cancels across shared faces sums over the surface as over the whole voxels. */
  lemma SurfaceIsWhole(n: nat, vol: seq<bool>, w: Weight)
    requires n > 0 && Antisymmetric(w)
    ensures FaceTotal(SurfaceFaces(n, vol), w) == Total(WholeWeight(n, vol, w), n * n * n)
  {
    hide AcrossWeight, SharedWeight, WholeWeight, FaceTotal, FacesUpTo, SharedTotal, Antisymmetric, SurfaceFaces;
    SurfaceBalance(n, vol, w);
    SharedCancels(n, vol, w, 0);
    SharedCancels(n, vol, w, 2);
    SharedCancels(n, vol, w, 4);
  }

  // ---- Counting -----------------------------------------------------------------------

  function InsideAt(vol: seq<bool>): nat -> nat {
    (i: nat) => if i < |vol| && vol[i] then 1 else 0
  }

  /** Number of inside voxels. */
  function Voxels(vol: seq<bool>): nat {
    Sum(InsideAt(vol), |vol|)
  }

  function SharedAt(n: nat, vol: seq<bool>, d: Direction): nat -> nat
    requires n > 0
  {
    (i: nat) => if Shared(n, vol, VoxelAt(n, i), d) then 1 else 0
  }

  /** Number of inside voxels whose neighbour in a direction is inside too. */
  function Pairs(n: nat, vol: seq<bool>, d: Direction): nat
    requires n > 0
  {
    Sum(SharedAt(n, vol, d), n * n * n)
  }

  lemma {:induction false} SumAsReal(f: nat -> nat, g: nat -> real, n: nat, c: real)
    requires forall i: nat :: i < n ==> g(i) == c * f(i) as real
    ensures Total(g, n) == c * Sum(f, n) as real
  {
    if n > 0 {
      SumAsReal(f, g, n - 1, c);
    }
  }

  /** When every voxel's six faces weigh the same, the whole weighs that times the voxels. */
  lemma WholeIsVoxels(n: nat, vol: seq<bool>, w: Weight, c: real)
    requires n > 0 && |vol| == n * n * n
    requires forall v :: SixFaces(w, v) == c
    ensures Total(WholeWeight(n, vol, w), n * n * n) == c * Voxels(vol) as real
  {
    hide VoxelAt, IndexOf, SixFaces;
    forall i: nat | i < n * n * n
      ensures WholeWeight(n, vol, w)(i) == c * InsideAt(vol)(i) as real
    {
      VoxelInCube(n, i);
      assert Inside(n, vol, VoxelAt(n, i)) == vol[i];
      assert WholeWeight(n, vol, w)(i) == if vol[i] then SixFaces(w, VoxelAt(n, i)) else 0.0;
    }
    SumAsReal(InsideAt(vol), WholeWeight(n, vol, w), n * n * n, c);
  }

  const UNIT: Weight := (v: Voxel, d: Direction) => 1.0

  lemma {:induction false} UnitTotal(faces: seq<Face>)
    ensures FaceTotal(faces, UNIT) == |faces| as real
  {
    if faces != [] {
      UnitTotal(faces[..|faces| - 1]);
    }
  }

  lemma PairsTotal(n: nat, vol: seq<bool>, d: Direction)
    requires n > 0
    ensures SharedTotal(n, vol, UNIT, d) == Pairs(n, vol, d) as real
    ensures Total(AcrossWeight(n, vol, UNIT, d), n * n * n) == Pairs(n, vol, d) as real
  {
    hide VoxelAt, Shared;
    SumAsReal(SharedAt(n, vol, d), SharedWeight(n, vol, UNIT, d), n * n * n, 1.0);
    SumAsReal(SharedAt(n, vol, d), AcrossWeight(n, vol, UNIT, d), n * n * n, 1.0);
  }

  /** Six faces a voxel, less two for every adjacent pair of inside voxels. */
  lemma FaceCount(n: nat, vol: seq<bool>)
    requires n > 0 && |vol| == n * n * n
    ensures |SurfaceFaces(n, vol)| == 6 * Voxels(vol) - 2 * (Pairs(n, vol, 0) + Pairs(n, vol, 2) + Pairs(n, vol, 4))
  {
    hide AcrossWeight, SharedWeight, WholeWeight, FaceTotal, FacesUpTo, SharedTotal, Voxels, Pairs, SurfaceFaces;
    SurfaceBalance(n, vol, UNIT);
    UnitTotal(SurfaceFaces(n, vol));
    WholeIsVoxels(n, vol, UNIT, 6.0);
    PairsTotal(n, vol, 0);
    PairsTotal(n, vol, 2);
    PairsTotal(n, vol, 4);
  }

  function Towards(faces: seq<Face>, d: Direction): nat {
    if faces == [] then 0
    else Towards(faces[..|faces| - 1], d) + (if faces[|faces| - 1].dir == d then 1 else 0)
  }

  function Leaning(e: Direction): Weight {
    (v: Voxel, d: Direction) => if d == e then 1.0 else if d == Opposite(e) then -1.0 else 0.0
  }

  lemma {:induction false} LeaningTotal(faces: seq<Face>, d: Direction)
    ensures FaceTotal(faces, Leaning(d)) == Towards(faces, d) as real - Towards(faces, Opposite(d)) as real
  {
    if faces != [] {
      LeaningTotal(faces[..|faces| - 1], d);
    }
  }

  /** Opposite directions emit equally many faces, so the outward normals sum to zero. */
  lemma OppositeCounts(n: nat, vol: seq<bool>, d: Direction)
    requires n > 0 && |vol| == n * n * n
    ensures Towards(SurfaceFaces(n, vol), d) == Towards(SurfaceFaces(n, vol), Opposite(d))
  {
    hide WholeWeight, FaceTotal, Voxels, SurfaceFaces, Towards, Neighbour;
    LeaningTotal(SurfaceFaces(n, vol), d);
    SurfaceIsWhole(n, vol, Leaning(d));
    WholeIsVoxels(n, vol, Leaning(d), 0.0);
  }

  // ---- Geometry -----------------------------------------------------------------------

  /** The cube [-extent, extent] on every axis, cut into `n` cells. */
  datatype Frame = Frame(n: nat, extent: real)

  function CellSize(fr: Frame): real
    requires fr.n > 0
  {
    fr.extent * 2.0 / fr.n as real
  }

  function Centre(fr: Frame, k: int): real
    requires fr.n > 0
  {
    -fr.extent + CellSize(fr) * 0.5 + k as real * CellSize(fr)
  }

  function Corner(fr: Frame, v: Voxel, d: Direction, k: nat): Point
    requires fr.n > 0 && k < 4
  {
    var o := FACES[d].corners[k];
    Point(Centre(fr, v.x) + o.x * CellSize(fr), Centre(fr, v.y) + o.y * CellSize(fr), Centre(fr, v.z) + o.z * CellSize(fr))
  }

  /** The grid plane below cell `k` of an axis. */
  function Plane(fr: Frame, k: int): real
    requires fr.n > 0
  {
    -fr.extent + k as real * CellSize(fr)
  }

  function LatticePoint(fr: Frame, v: Voxel): Point
    requires fr.n > 0
  {
    Point(Plane(fr, v.x), Plane(fr, v.y), Plane(fr, v.z))
  }

  function Side(k: int, offset: real): int {
    if offset > 0.0 then k + 1 else k
  }

  function CornerCell(v: Voxel, d: Direction, k: nat): Voxel
    requires k < 4
  {
    var o := FACES[d].corners[k];
    Voxel(Side(v.x, o.x), Side(v.y, o.y), Side(v.z, o.z))
  }

  lemma OnPlane(fr: Frame, k: int, offset: real)
    requires fr.n > 0 && (offset == 0.5 || offset == -0.5)
    ensures Centre(fr, k) + offset * CellSize(fr) == Plane(fr, Side(k, offset))
  {
    assert (k + 1) as real * CellSize(fr) == k as real * CellSize(fr) + CellSize(fr);
  }

  /** Every corner is a lattice point, so neighbouring faces share corners exactly. */
  lemma CornerOnLattice(fr: Frame, v: Voxel, d: Direction, k: nat)
    requires fr.n > 0 && k < 4
    ensures Corner(fr, v, d, k) == LatticePoint(fr, CornerCell(v, d, k))
  {
    var o := FACES[d].corners[k];
    OnPlane(fr, v.x, o.x);
    OnPlane(fr, v.y, o.y);
    OnPlane(fr, v.z, o.z);
  }

  /** The `n` cells of an axis are equal and fill it from `-extent` to `extent`. */
  lemma FrameFilled(fr: Frame, k: int)
    requires fr.n > 0
    ensures CellSize(fr) * fr.n as real == 2.0 * fr.extent
    ensures Centre(fr, k + 1) - Centre(fr, k) == CellSize(fr)
    ensures Centre(fr, 0) - CellSize(fr) / 2.0 == -fr.extent
    ensures Centre(fr, fr.n - 1) + CellSize(fr) / 2.0 == fr.extent
  {
    var s := CellSize(fr);
    assert s * fr.n as real == 2.0 * fr.extent;
    assert (k + 1) as real * s == k as real * s + s;
    assert (fr.n - 1) as real * s == fr.n as real * s - s;
  }

  datatype Triangle = Triangle(normal: Point, a: Point, b: Point, c: Point)

  function Normal(d: Direction): Point {
    Point(FACES[d].nx as real, FACES[d].ny as real, FACES[d].nz as real)
  }

  /** A quad is split along its first diagonal. */
  function Quad(fr: Frame, f: Face): seq<Triangle>
    requires fr.n > 0
  {
    var p := (k: nat) requires k < 4 => Corner(fr, f.voxel, f.dir, k);
    [Triangle(Normal(f.dir), p(0), p(1), p(2)), Triangle(Normal(f.dir), p(0), p(2), p(3))]
  }

  function Mesh(fr: Frame, faces: seq<Face>): seq<Triangle>
    requires fr.n > 0
  {
    if faces == [] then [] else Mesh(fr, faces[..|faces| - 1]) + Quad(fr, faces[|faces| - 1])
  }

  // ---- Closedness ---------------------------------------------------------------------

  function EdgeIs(p: Point, q: Point, a: Point, b: Point): nat {
    if p == a && q == b then 1 else 0
  }

  /** How often triangles run along the edge from `a` to `b`. */
  function EdgeUses(mesh: seq<Triangle>, a: Point, b: Point): nat {
    if mesh == [] then 0
    else
      var t := mesh[|mesh| - 1];
      EdgeUses(mesh[..|mesh| - 1], a, b) + EdgeIs(t.a, t.b, a, b) + EdgeIs(t.b, t.c, a, b) + EdgeIs(t.c, t.a, a, b)
  }

  /** Every edge is used equally often in both directions. */
  ghost predicate Watertight(mesh: seq<Triangle>) {
    forall a, b :: EdgeUses(mesh, a, b) == EdgeUses(mesh, b, a)
  }

  /** Forward less backward uses of an edge by one side. */
  function Along(p: Point, q: Point, a: Point, b: Point): real {
    EdgeIs(p, q, a, b) as real - EdgeIs(p, q, b, a) as real
  }

  lemma AlongBack(p: Point, q: Point, a: Point, b: Point)
    ensures Along(q, p, a, b) == -Along(p, q, a, b)
  {
  }

  function Around(fr: Frame, a: Point, b: Point): Weight
    requires fr.n > 0
  {
    (v: Voxel, d: Direction) =>
      Along(Corner(fr, v, d, 0), Corner(fr, v, d, 1), a, b) + Along(Corner(fr, v, d, 1), Corner(fr, v, d, 2), a, b) +
      Along(Corner(fr, v, d, 2), Corner(fr, v, d, 3), a, b) + Along(Corner(fr, v, d, 3), Corner(fr, v, d, 0), a, b)
  }

  /** The diagonal of a quad is run in both directions, so only its four sides remain. */
  lemma {:induction false} MeshAround(fr: Frame, faces: seq<Face>, a: Point, b: Point)
    requires fr.n > 0
    ensures EdgeUses(Mesh(fr, faces), a, b) as real - EdgeUses(Mesh(fr, faces), b, a) as real ==
            FaceTotal(faces, Around(fr, a, b))
  {
    if faces != [] {
      var rest, f := faces[..|faces| - 1], faces[|faces| - 1];
      MeshAround(fr, rest, a, b);
      QuadUses(fr, Mesh(fr, rest), f, a, b);
    }
  }

  lemma QuadUses(fr: Frame, mesh: seq<Triangle>, f: Face, a: Point, b: Point)
    requires fr.n > 0
    ensures EdgeUses(mesh + Quad(fr, f), a, b) as real - EdgeUses(mesh + Quad(fr, f), b, a) as real ==
            EdgeUses(mesh, a, b) as real - EdgeUses(mesh, b, a) as real + Around(fr, a, b)(f.voxel, f.dir)
  {
    hide Corner;
    var q := Quad(fr, f);
    assert (mesh + q)[..|mesh| + 1] == mesh + [q[0]];
    assert (mesh + [q[0]])[..|mesh|] == mesh;
  }

  lemma AroundLattice(fr: Frame, v: Voxel, d: Direction, a: Point, b: Point)
    requires fr.n > 0
    ensures var p := (k: nat) requires k < 4 => LatticePoint(fr, CornerCell(v, d, k));
            Around(fr, a, b)(v, d) ==
            Along(p(0), p(1), a, b) + Along(p(1), p(2), a, b) + Along(p(2), p(3), a, b) + Along(p(3), p(0), a, b)
  {
    hide Corner, CornerCell, LatticePoint, Along;
    CornerOnLattice(fr, v, d, 0);
    CornerOnLattice(fr, v, d, 1);
    CornerOnLattice(fr, v, d, 2);
    CornerOnLattice(fr, v, d, 3);
  }

  lemma AlongAlwaysBack(a: Point, b: Point)
    ensures forall p, q :: Along(q, p, a, b) == -Along(p, q, a, b)
  {
    forall p, q
      ensures Along(q, p, a, b) == -Along(p, q, a, b)
    {
      AlongBack(p, q, a, b);
    }
  }

  /** Seen from the other voxel a shared face runs the other way round. */
  lemma AroundCancels(fr: Frame, a: Point, b: Point)
    requires fr.n > 0
    ensures Antisymmetric(Around(fr, a, b))
  {
    hide LatticePoint, Along, Around;
    AlongAlwaysBack(a, b);
    forall v, d: Direction | d % 2 == 0
      ensures Around(fr, a, b)(Neighbour(v, d), Opposite(d)) == -Around(fr, a, b)(v, d)
    {
      AroundLattice(fr, v, d, a, b);
      AroundLattice(fr, Neighbour(v, d), Opposite(d), a, b);
    }
  }

  /** The six faces of a single voxel are closed. */
  lemma VoxelCloses(fr: Frame, v: Voxel, a: Point, b: Point)
    requires fr.n > 0
    ensures SixFaces(Around(fr, a, b), v) == 0.0
  {
    hide LatticePoint, Along, Around;
    AlongAlwaysBack(a, b);
    AroundLattice(fr, v, 0, a, b);
    AroundLattice(fr, v, 1, a, b);
    AroundLattice(fr, v, 2, a, b);
    AroundLattice(fr, v, 3, a, b);
    AroundLattice(fr, v, 4, a, b);
    AroundLattice(fr, v, 5, a, b);
  }

  /** The surface of any volume is watertight. */
  lemma SurfaceCloses(fr: Frame, vol: seq<bool>)
    requires fr.n > 0 && |vol| == fr.n * fr.n * fr.n
    ensures Watertight(Mesh(fr, SurfaceFaces(fr.n, vol)))
  {
    hide WholeWeight, FaceTotal, Voxels, SurfaceFaces, Mesh, EdgeUses, Around, SixFaces, Antisymmetric;
    forall a, b
      ensures EdgeUses(Mesh(fr, SurfaceFaces(fr.n, vol)), a, b) == EdgeUses(Mesh(fr, SurfaceFaces(fr.n, vol)), b, a)
    {
      MeshAround(fr, SurfaceFaces(fr.n, vol), a, b);
      AroundCancels(fr, a, b);
      SurfaceIsWhole(fr.n, vol, Around(fr, a, b));
      forall v
        ensures SixFaces(Around(fr, a, b), v) == 0.0
      {
        VoxelCloses(fr, v, a, b);
      }
      WholeIsVoxels(fr.n, vol, Around(fr, a, b), 0.0);
    }
  }

  // ---- Orientation and volume -----------------------------------------------------------

  function Minus(p: Point, q: Point): Point {
    Point(p.x - q.x, p.y - q.y, p.z - q.z)
  }

  function Cross(p: Point, q: Point): Point {
    Point(p.y * q.z - p.z * q.y, p.z * q.x - p.x * q.z, p.x * q.y - p.y * q.x)
  }

  function Dot(p: Point, q: Point): real {
    p.x * q.x + p.y * q.y + p.z * q.z
  }

  function Scaled(c: real, p: Point): Point {
    Point(c * p.x, c * p.y, c * p.z)
  }

  /** The corner of an axis-parallel box of side `s` with its low corner at `p`. */
  function BoxCorner(p: Point, s: real, d: Direction, k: nat): Point
    requires k < 4
  {
    var o := FACES[d].corners[k];
    Point(p.x + (o.x + 0.5) * s, p.y + (o.y + 0.5) * s, p.z + (o.z + 0.5) * s)
  }

  lemma CornerOfBox(fr: Frame, v: Voxel, d: Direction, k: nat)
    requires fr.n > 0 && k < 4
    ensures Corner(fr, v, d, k) == BoxCorner(LatticePoint(fr, v), CellSize(fr), d, k)
  {
    var o := FACES[d].corners[k];
    hide CellSize;
    assert (o.x + 0.5) * CellSize(fr) == o.x * CellSize(fr) + 0.5 * CellSize(fr);
    assert (o.y + 0.5) * CellSize(fr) == o.y * CellSize(fr) + 0.5 * CellSize(fr);
    assert (o.z + 0.5) * CellSize(fr) == o.z * CellSize(fr) + 0.5 * CellSize(fr);
  }

  lemma BoxEdge(p: Point, s: real, d: Direction, k: nat)
    requires k < 4
    ensures Minus(BoxCorner(p, s, d, k), BoxCorner(p, s, d, 0)) == Scaled(s, Minus(FACES[d].corners[k], FACES[d].corners[0]))
  {
    var o, o0 := FACES[d].corners[k], FACES[d].corners[0];
    Stretch(s, o.x, o0.x);
    Stretch(s, o.y, o0.y);
    Stretch(s, o.z, o0.z);
  }

  lemma Stretch(s: real, a: real, b: real)
    ensures (a + 0.5) * s - (b + 0.5) * s == s * (a - b)
  {
  }

  lemma CrossScaled(s: real, p: Point, q: Point)
    ensures Cross(Scaled(s, p), Scaled(s, q)) == Scaled(s * s, Cross(p, q))
  {
    hide Cross, Scaled;
    CrossScaledX(s, p, q);
    CrossScaledY(s, p, q);
    CrossScaledZ(s, p, q);
  }

  lemma CrossScaledX(s: real, p: Point, q: Point)
    ensures Cross(Scaled(s, p), Scaled(s, q)).x == Scaled(s * s, Cross(p, q)).x
  {
    var u, v := Scaled(s, p), Scaled(s, q);
    ScaledDifference(s, s * s, p.y, q.z, p.z, q.y, u.y, v.z, u.z, v.y, Cross(p, q).x);
  }

  lemma CrossScaledY(s: real, p: Point, q: Point)
    ensures Cross(Scaled(s, p), Scaled(s, q)).y == Scaled(s * s, Cross(p, q)).y
  {
    var u, v := Scaled(s, p), Scaled(s, q);
    ScaledDifference(s, s * s, p.z, q.x, p.x, q.z, u.z, v.x, u.x, v.z, Cross(p, q).y);
  }

  lemma CrossScaledZ(s: real, p: Point, q: Point)
    ensures Cross(Scaled(s, p), Scaled(s, q)).z == Scaled(s * s, Cross(p, q)).z
  {
    var u, v := Scaled(s, p), Scaled(s, q);
    ScaledDifference(s, s * s, p.x, q.y, p.y, q.x, u.x, v.y, u.y, v.x, Cross(p, q).z);
  }

  lemma ScaledDifference(s: real, t: real, a: real, b: real, c: real, d: real,
                         sa: real, sb: real, sc: real, sd: real, difference: real)
    requires t == s * s && sa == s * a && sb == s * b && sc == s * c && sd == s * d && difference == a * b - c * d
    ensures sa * sb - sc * sd == t * difference
  {
    assert (s * a) * (s * b) == (s * s) * (a * b);
    assert (s * c) * (s * d) == (s * s) * (c * d);
  }

  function Plus(p: Point, q: Point): Point {
    Point(p.x + q.x, p.y + q.y, p.z + q.z)
  }

  /** Either side of a parallelogram with its diagonal spans what the two sides span. */
  lemma CrossDiagonal(p: Point, q: Point)
    ensures Cross(p, Plus(p, q)) == Cross(p, q) && Cross(Plus(p, q), q) == Cross(p, q)
  {
  }

  lemma CrossAxes(s: real, t: real)
    ensures Cross(Point(0.0, s, 0.0), Point(0.0, 0.0, t)) == Point(s * t, 0.0, 0.0)
    ensures Cross(Point(0.0, 0.0, s), Point(t, 0.0, 0.0)) == Point(0.0, s * t, 0.0)
    ensures Cross(Point(s, 0.0, 0.0), Point(0.0, t, 0.0)) == Point(0.0, 0.0, s * t)
  {
  }

  lemma TableWinds(d: Direction)
    ensures var o := FACES[d].corners;
            Cross(Minus(o[1], o[0]), Minus(o[3], o[0])) == Normal(d) &&
            Minus(o[2], o[0]) == Plus(Minus(o[1], o[0]), Minus(o[3], o[0]))
  {
    hide Cross;
    CrossAxes(1.0, 1.0);
    CrossAxes(1.0, -1.0);
    CrossAxes(-1.0, 1.0);
  }

  /** Both triangles of every face wind counter-clockwise around its normal. */
  lemma WindsAroundNormal(fr: Frame, f: Face)
    requires fr.n > 0
    ensures forall t :: t in Quad(fr, f) ==>
              t.normal == Normal(f.dir) &&
              Cross(Minus(t.b, t.a), Minus(t.c, t.a)) == Scaled(CellSize(fr) * CellSize(fr), Normal(f.dir))
  {
    hide Corner, CellSize, BoxCorner, Cross, Minus, Scaled, Normal, LatticePoint;
    var p, s, d, o := LatticePoint(fr, f.voxel), CellSize(fr), f.dir, FACES[f.dir].corners;
    CornerOfBox(fr, f.voxel, d, 0);
    CornerOfBox(fr, f.voxel, d, 1);
    CornerOfBox(fr, f.voxel, d, 2);
    CornerOfBox(fr, f.voxel, d, 3);
    BoxEdge(p, s, d, 1);
    BoxEdge(p, s, d, 2);
    BoxEdge(p, s, d, 3);
    CrossScaled(s, Minus(o[1], o[0]), Minus(o[2], o[0]));
    CrossScaled(s, Minus(o[2], o[0]), Minus(o[3], o[0]));
    TableWinds(d);
    CrossDiagonal(Minus(o[1], o[0]), Minus(o[3], o[0]));
  }

  /** The centre of a face lies half a cell along its normal from the centre of its voxel. */
  lemma FacesOutward(fr: Frame, v: Voxel, d: Direction)
    requires fr.n > 0
    ensures var c, e := Corner(fr, v, d, 0), Corner(fr, v, d, 2);
            var middle := Point((c.x + e.x) / 2.0, (c.y + e.y) / 2.0, (c.z + e.z) / 2.0);
            Minus(middle, Point(Centre(fr, v.x), Centre(fr, v.y), Centre(fr, v.z))) ==
            Scaled(CellSize(fr) / 2.0, Normal(d))
  {
    hide CellSize, Centre;
  }

  function QuadSix(a: Point, b: Point, c: Point, e: Point): real {
    Dot(a, Cross(b, c)) + Dot(a, Cross(c, e))
  }

  /** How far the plane of a face lies in the direction of its normal. */
  function Reach(p: Point, s: real, d: Direction): real {
    if d == 0 then p.x + s else if d == 1 then -p.x
    else if d == 2 then p.y + s else if d == 3 then -p.y
    else if d == 4 then p.z + s else -p.z
  }

  lemma BoxSpans(p: Point, s: real, d: Direction)
    ensures QuadSix(BoxCorner(p, s, d, 0), BoxCorner(p, s, d, 1), BoxCorner(p, s, d, 2), BoxCorner(p, s, d, 3)) ==
            2.0 * s * s * Reach(p, s, d)
  {
  }

  function Spanned(fr: Frame): Weight
    requires fr.n > 0
  {
    (v: Voxel, d: Direction) => QuadSix(Corner(fr, v, d, 0), Corner(fr, v, d, 1), Corner(fr, v, d, 2), Corner(fr, v, d, 3))
  }

  lemma SpannedFace(fr: Frame, v: Voxel, d: Direction)
    requires fr.n > 0
    ensures Spanned(fr)(v, d) == 2.0 * CellSize(fr) * CellSize(fr) * Reach(LatticePoint(fr, v), CellSize(fr), d)
  {
    hide Corner, CellSize, BoxCorner, QuadSix;
    CornerOfBox(fr, v, d, 0);
    CornerOfBox(fr, v, d, 1);
    CornerOfBox(fr, v, d, 2);
    CornerOfBox(fr, v, d, 3);
    BoxSpans(LatticePoint(fr, v), CellSize(fr), d);
  }

  lemma SpannedCancels(fr: Frame)
    requires fr.n > 0
    ensures Antisymmetric(Spanned(fr))
  {
    hide CellSize, Spanned;
    forall v, d: Direction | d % 2 == 0
      ensures Spanned(fr)(Neighbour(v, d), Opposite(d)) == -Spanned(fr)(v, d)
    {
      SpannedFace(fr, v, d);
      SpannedFace(fr, Neighbour(v, d), Opposite(d));
      NextPlane(fr, v.x);
      NextPlane(fr, v.y);
      NextPlane(fr, v.z);
      hide Plane;
      assert Reach(LatticePoint(fr, Neighbour(v, d)), CellSize(fr), Opposite(d)) == -Reach(LatticePoint(fr, v), CellSize(fr), d);
    }
  }

  lemma NextPlane(fr: Frame, k: int)
    requires fr.n > 0
    ensures Plane(fr, k + 1) == Plane(fr, k) + CellSize(fr)
  {
    assert (k + 1) as real * CellSize(fr) == k as real * CellSize(fr) + CellSize(fr);
  }

  function Cube(s: real): real {
    s * s * s
  }

  lemma SpannedVoxel(fr: Frame, v: Voxel)
    requires fr.n > 0
    ensures SixFaces(Spanned(fr), v) == 6.0 * Cube(CellSize(fr))
  {
    hide CellSize, Spanned, LatticePoint;
    var p, s := LatticePoint(fr, v), CellSize(fr);
    SpannedFace(fr, v, 0);
    SpannedFace(fr, v, 1);
    SpannedFace(fr, v, 2);
    SpannedFace(fr, v, 3);
    SpannedFace(fr, v, 4);
    SpannedFace(fr, v, 5);
    Spread(2.0 * s * s, p.x, s);
    Spread(2.0 * s * s, p.y, s);
    Spread(2.0 * s * s, p.z, s);
  }

  lemma Spread(c: real, x: real, s: real)
    ensures c * (x + s) + c * -x == c * s
  {
  }

  /** Six times the signed volume between the origin and the triangles. */
  function SixVolume(mesh: seq<Triangle>): real {
    if mesh == [] then 0.0
    else
      var t := mesh[|mesh| - 1];
      SixVolume(mesh[..|mesh| - 1]) + Dot(t.a, Cross(t.b, t.c))
  }

  lemma {:induction false} MeshSpans(fr: Frame, faces: seq<Face>)
    requires fr.n > 0
    ensures SixVolume(Mesh(fr, faces)) == FaceTotal(faces, Spanned(fr))
  {
    if faces != [] {
      var rest, f := faces[..|faces| - 1], faces[|faces| - 1];
      MeshSpans(fr, rest);
      QuadSpans(fr, Mesh(fr, rest), f);
    }
  }

  lemma QuadSpans(fr: Frame, mesh: seq<Triangle>, f: Face)
    requires fr.n > 0
    ensures SixVolume(mesh + Quad(fr, f)) == SixVolume(mesh) + Spanned(fr)(f.voxel, f.dir)
  {
    hide Corner, Dot, Cross;
    var q := Quad(fr, f);
    assert (mesh + q)[..|mesh| + 1] == mesh + [q[0]];
    assert (mesh + [q[0]])[..|mesh|] == mesh;
  }

  /** The surface encloses exactly the volume of the inside voxels. */
  lemma SurfaceEncloses(fr: Frame, vol: seq<bool>)
    requires fr.n > 0 && |vol| == fr.n * fr.n * fr.n
    ensures SixVolume(Mesh(fr, SurfaceFaces(fr.n, vol))) == 6.0 * Cube(CellSize(fr)) * Voxels(vol) as real
  {
    hide WholeWeight, FaceTotal, Voxels, SurfaceFaces, Mesh, SixVolume, Spanned, SixFaces, Antisymmetric, Cube, CellSize;
    MeshSpans(fr, SurfaceFaces(fr.n, vol));
    SpannedCancels(fr);
    SurfaceIsWhole(fr.n, vol, Spanned(fr));
    forall v
      ensures SixFaces(Spanned(fr), v) == 6.0 * Cube(CellSize(fr))
    {
      SpannedVoxel(fr, v);
    }
    WholeIsVoxels(fr.n, vol, Spanned(fr), 6.0 * Cube(CellSize(fr)));
  }

  // ---- The extraction loops ---------------------------------------------------------------

  function Classified(data: seq<real>, iso: real): (vol: seq<bool>)
    ensures |vol| == |data|
  {
    seq(|data|, (i: nat) requires i < |data| => data[i] < iso)
  }

  /** The voxel count is the number of samples below the threshold. */
  lemma BelowCount(data: seq<real>, iso: real)
    ensures Voxels(Classified(data, iso)) == |set i: nat | i < |data| && data[i] < iso|
  {
    var a := set i: nat | i < |data| && data[i] < iso;
    SumIndicator(a, |data|);
    SumSame(InsideAt(Classified(data, iso)), Indicator(a), |data|);
  }

  /** The sample of a voxel lies below the threshold; nothing outside the cube does. */
  predicate Below(n: nat, data: seq<real>, iso: real, v: Voxel) {
    && 0 <= v.x < n && 0 <= v.y < n && 0 <= v.z < n
    && 0 <= v.x + n * (v.y + n * v.z) < |data| && data[v.x + n * (v.y + n * v.z)] < iso
  }

  /** A face is emitted, and once, exactly when its voxel is below the threshold and its neighbour is not. */
  lemma BoundaryFaces(n: nat, data: seq<real>, iso: real, f: Face)
    requires n > 0 && |data| == n * n * n
    ensures multiset(SurfaceFaces(n, Classified(data, iso)))[f] ==
            if Below(n, data, iso, f.voxel) &&
               !Below(n, data, iso, Voxel(f.voxel.x + FACES[f.dir].dx, f.voxel.y + FACES[f.dir].dy, f.voxel.z + FACES[f.dir].dz))
            then 1 else 0
  {
    hide SurfaceFaces;
    EachFaceOnce(n, Classified(data, iso), f);
  }

  /** The depth byte of an inside voxel; the conversion to an integer truncates. */
  function DepthByte(v: real, iso: real): nat
    requires 0.0 <= v < iso
  {
    assert v / iso * 254.0 >= 0.0 by { RatioBelowOne(v, iso); }
    var scaled := 1 + (v / iso * 254.0).Floor;
    if scaled < 255 then scaled else 255
  }

  lemma RatioBelowOne(v: real, iso: real)
    requires 0.0 <= v < iso
    ensures 0.0 <= v / iso < 1.0
  {
    var q := v / iso;
    assert q * iso == v;
  }

  /** Depth bytes grow with the field value from 1; the documented surface value 255 is never reached. */
  lemma DepthOrdered(v: real, u: real, iso: real)
    requires 0.0 <= v <= u < iso
    ensures 1 <= DepthByte(v, iso) <= DepthByte(u, iso) <= 254
  {
    RatioBelowOne(v, iso);
    RatioBelowOne(u, iso);
    RealDivMonotone(v, u, iso);
  }

  /** The depth byte is the field value on a scale of 254 steps, rounded up to the next whole step. */
  lemma DepthIsScaled(v: real, iso: real)
    requires 0.0 <= v < iso
    ensures (DepthByte(v, iso) - 1) as real <= v / iso * 254.0 < DepthByte(v, iso) as real
  {
    RatioBelowOne(v, iso);
  }

  method Classify(data: seq<real>, iso: real) returns (vol: array<bool>, dep: array<nat>, voxelCount: nat)
    requires forall i :: 0 <= i < |data| ==> data[i] >= 0.0
    ensures fresh(vol) && fresh(dep) && dep.Length == |data|
    ensures vol[..] == Classified(data, iso) && voxelCount == Voxels(vol[..])
    ensures forall i :: 0 <= i < |data| ==> dep[i] == if data[i] < iso then DepthByte(data[i], iso) else 0
    ensures vol.Length == |data| && forall i :: 0 <= i < |data| ==> (vol[i] <==> data[i] < iso)
    ensures voxelCount == |set i: nat | i < |data| && data[i] < iso|
  {
    hide DepthByte;
    vol := new bool[|data|](_ => false);
    dep := new nat[|data|](_ => 0);
    voxelCount := 0;
    ghost var inside := InsideAt(Classified(data, iso));
    for i := 0 to |data|
      invariant forall k :: 0 <= k < i ==> vol[k] == (data[k] < iso)
      invariant forall k :: 0 <= k < i ==> dep[k] == if data[k] < iso then DepthByte(data[k], iso) else 0
      invariant forall k :: i <= k < |data| ==> !vol[k] && dep[k] == 0
      invariant voxelCount == Sum(inside, i)
    {
      var v := data[i];
      if v < iso {
        vol[i] := true;
        voxelCount := voxelCount + 1;
        dep[i] := DepthByte(v, iso);
      }
    }
    assert vol[..] == Classified(data, iso);
    BelowCount(data, iso);
  }

  method Look(n: nat, vol: array<bool>, v: Voxel) returns (inside: bool)
    requires vol.Length == n * n * n
    ensures inside == Inside(n, vol[..], v)
  {
    if v.x < 0 || v.x >= n || v.y < 0 || v.y >= n || v.z < 0 || v.z >= n {
      return false;
    }
    IndexInRange(n, v);
    inside := vol[IndexOf(n, v)];
  }

  /** The corner coordinates of a quad, corner by corner. */
  ghost predicate QuadAt(fr: Frame, f: Face, pos: seq<real>, at: nat)
    requires fr.n > 0
  {
    at + 12 <= |pos| &&
    forall k: nat :: k < 4 ==> Point(pos[at + 3 * k], pos[at + 3 * k + 1], pos[at + 3 * k + 2]) == Corner(fr, f.voxel, f.dir, k)
  }

  ghost predicate Emitted(fr: Frame, faces: seq<Face>, pos: seq<real>)
    requires fr.n > 0
  {
    |pos| == 12 * |faces| && forall i: nat :: i < |faces| ==> QuadAt(fr, faces[i], pos, 12 * i)
  }

  ghost predicate EmittedNormals(faces: seq<Face>, norm: seq<int>) {
    |norm| == 3 * |faces| &&
    forall i: nat :: i < |faces| ==>
      Point(norm[3 * i] as real, norm[3 * i + 1] as real, norm[3 * i + 2] as real) == Normal(faces[i].dir)
  }

  /** Every face carries the depth of its voxel. */
  predicate EmittedDepths(n: nat, dep: seq<nat>, faces: seq<Face>, depth: seq<nat>) {
    |depth| == |faces| &&
    forall i: nat :: i < |faces| ==> 0 <= IndexOf(n, faces[i].voxel) < |dep| && depth[i] == dep[IndexOf(n, faces[i].voxel)]
  }

  lemma EmitOne(fr: Frame, faces: seq<Face>, pos: seq<real>, f: Face, quad: seq<real>)
    requires fr.n > 0 && Emitted(fr, faces, pos) && |quad| == 12 && QuadAt(fr, f, quad, 0)
    ensures Emitted(fr, faces + [f], pos + quad)
  {
    hide Corner;
    forall i: nat | i < |faces| + 1
      ensures QuadAt(fr, (faces + [f])[i], pos + quad, 12 * i)
    {
      if i < |faces| {
        assert QuadAt(fr, faces[i], pos, 12 * i);
      }
    }
  }

  method EmitQuad(fr: Frame, v: Voxel, d: Direction, cx: real, cy: real, cz: real) returns (quad: seq<real>)
    requires fr.n > 0 && cx == Centre(fr, v.x) && cy == Centre(fr, v.y) && cz == Centre(fr, v.z)
    ensures |quad| == 12 && QuadAt(fr, Face(v, d), quad, 0)
  {
    var f, cellSize := FACES[d], CellSize(fr);
    quad := [];
    for k := 0 to 4
      invariant |quad| == 3 * k
      invariant forall j: nat :: j < k ==> Point(quad[3 * j], quad[3 * j + 1], quad[3 * j + 2]) == Corner(fr, v, d, j)
    {
      hide Centre, CellSize;
      quad := quad + [cx + f.corners[k].x * cellSize];
      quad := quad + [cy + f.corners[k].y * cellSize];
      quad := quad + [cz + f.corners[k].z * cellSize];
    }
  }

  /** Positions, normals and depths of the faces, in step. */
  ghost predicate Recorded(fr: Frame, dep: seq<nat>, faces: seq<Face>, pos: seq<real>, norm: seq<int>, depth: seq<nat>)
    requires fr.n > 0
  {
    Emitted(fr, faces, pos) && EmittedNormals(faces, norm) && EmittedDepths(fr.n, dep, faces, depth)
  }

  lemma RecordOne(fr: Frame, dep: seq<nat>, faces: seq<Face>, pos: seq<real>, norm: seq<int>, depth: seq<nat>,
                  f: Face, quad: seq<real>, at: nat)
    requires fr.n > 0 && Recorded(fr, dep, faces, pos, norm, depth)
    requires |quad| == 12 && QuadAt(fr, f, quad, 0)
    requires at == IndexOf(fr.n, f.voxel) && at < |dep|
    ensures Recorded(fr, dep, faces + [f], pos + quad,
                     norm + [FACES[f.dir].nx, FACES[f.dir].ny, FACES[f.dir].nz], depth + [dep[at]])
  {
    hide Corner, QuadAt, IndexOf;
    EmitOne(fr, faces, pos, f, quad);
    hide Emitted;
  }

  /** One voxel's exposed faces. */
  method EmitVoxel(fr: Frame, vol: array<bool>, dep: array<nat>, xi: nat, yi: nat, zi: nat, ghost faces: seq<Face>,
                   pos0: seq<real>, norm0: seq<int>, depth0: seq<nat>)
    returns (pos: seq<real>, norm: seq<int>, depth: seq<nat>)
    requires fr.n > 0 && vol.Length == dep.Length == fr.n * fr.n * fr.n && InCube(fr.n, Voxel(xi, yi, zi))
    requires Recorded(fr, dep[..], faces, pos0, norm0, depth0)
    ensures Recorded(fr, dep[..], faces + VoxelFaces(fr.n, vol[..], Voxel(xi, yi, zi), 6), pos, norm, depth)
  {
    hide Recorded, QuadAt, VoxelAt, IndexOf, Inside, Neighbour, Centre, InCube;
    pos, norm, depth := pos0, norm0, depth0;
    var n, v := fr.n, Voxel(xi, yi, zi);
    var inside := Look(n, vol, v);
    if !inside {
      NoFaces(n, vol[..], v, 6);
      assert faces + [] == faces;
      return;
    }
    IndexInRange(n, v);
    var voxelDepth := dep[IndexOf(n, v)];
    var cx, cy, cz := Centre(fr, xi), Centre(fr, yi), Centre(fr, zi);
    ghost var sofar := faces;
    assert sofar == faces + VoxelFaces(n, vol[..], v, 0);
    for d := 0 to 6
      invariant sofar == faces + VoxelFaces(n, vol[..], v, d)
      invariant Recorded(fr, dep[..], sofar, pos, norm, depth)
    {
      var f := FACES[d];
      var covered := Look(n, vol, Neighbour(v, d));
      if !covered {
        var quad := EmitQuad(fr, v, d, cx, cy, cz);
        RecordOne(fr, dep[..], sofar, pos, norm, depth, Face(v, d), quad, IndexOf(n, v));
        pos := pos + quad;
        norm := norm + [f.nx, f.ny, f.nz];
        depth := depth + [voxelDepth];
        sofar := sofar + [Face(v, d)];
      }
    }
  }

  lemma {:induction false} NoFaces(n: nat, vol: seq<bool>, v: Voxel, d: nat)
    requires d <= 6 && !Inside(n, vol, v)
    ensures VoxelFaces(n, vol, v, d) == []
  {
    if d > 0 {
      NoFaces(n, vol, v, d - 1);
    }
  }

  lemma NextVoxel(n: nat, vol: seq<bool>, v: Voxel, i: nat)
    requires InCube(n, v) && i == IndexOf(n, v)
    ensures FacesUpTo(n, vol, i + 1) == FacesUpTo(n, vol, i) + VoxelFaces(n, vol, v, 6)
  {
    hide VoxelFaces;
    IndexInRange(n, v);
    assert VoxelAt(n, i) == v;
  }

  method EmitFaces(fr: Frame, vol: array<bool>, dep: array<nat>) returns (pos: seq<real>, norm: seq<int>, depth: seq<nat>)
    requires fr.n > 0 && vol.Length == dep.Length == fr.n * fr.n * fr.n
    ensures Recorded(fr, dep[..], SurfaceFaces(fr.n, vol[..]), pos, norm, depth)
  {
    hide VoxelFaces, FacesUpTo;
    var n := fr.n;
    pos, norm, depth := [], [], [];
    ghost var i, faces := 0, [];
    NoVoxels(n, vol[..]);
    RecordNone(fr, dep[..]);
    hide Recorded;
    for zi := 0 to n
      invariant i == n * (n * zi) && faces == FacesUpTo(n, vol[..], i)
      invariant Recorded(fr, dep[..], faces, pos, norm, depth)
    {
      Distribute(n, n * zi, n);
      for yi := 0 to n
        invariant i == n * (yi + n * zi) && faces == FacesUpTo(n, vol[..], i)
        invariant Recorded(fr, dep[..], faces, pos, norm, depth)
      {
        Distribute(n, yi + n * zi, 1);
        for xi := 0 to n
          invariant i == xi + n * (yi + n * zi) && faces == FacesUpTo(n, vol[..], i)
          invariant Recorded(fr, dep[..], faces, pos, norm, depth)
        {
          var v := Voxel(xi, yi, zi);
          pos, norm, depth := EmitVoxel(fr, vol, dep, xi, yi, zi, faces, pos, norm, depth);
          NextVoxel(n, vol[..], v, i);
          faces := faces + VoxelFaces(n, vol[..], v, 6);
          i := i + 1;
        }
      }
    }
    assert n * (n * n) == n * n * n;
  }

  lemma NoVoxels(n: nat, vol: seq<bool>)
    requires n > 0
    ensures FacesUpTo(n, vol, 0) == []
  {
  }

  lemma RecordNone(fr: Frame, dep: seq<nat>)
    requires fr.n > 0
    ensures Recorded(fr, dep, [], [], [], [])
  {
  }

  lemma QuadRead(fr: Frame, f: Face, pos: seq<real>, at: nat)
    requires fr.n > 0 && QuadAt(fr, f, pos, at)
    ensures at + 12 <= |pos|
    ensures Point(pos[at], pos[at + 1], pos[at + 2]) == Corner(fr, f.voxel, f.dir, 0)
    ensures Point(pos[at + 3], pos[at + 4], pos[at + 5]) == Corner(fr, f.voxel, f.dir, 1)
    ensures Point(pos[at + 6], pos[at + 7], pos[at + 8]) == Corner(fr, f.voxel, f.dir, 2)
    ensures Point(pos[at + 9], pos[at + 10], pos[at + 11]) == Corner(fr, f.voxel, f.dir, 3)
  {
    hide Corner;
    assert forall k: nat :: k < 4 ==>
      Point(pos[at + 3 * k], pos[at + 3 * k + 1], pos[at + 3 * k + 2]) == Corner(fr, f.voxel, f.dir, k);
    var p := (k: nat) requires k < 4 => Corner(fr, f.voxel, f.dir, k);
    assert p(0) == Point(pos[at + 3 * 0], pos[at + 3 * 0 + 1], pos[at + 3 * 0 + 2]);
    assert p(1) == Point(pos[at + 3 * 1], pos[at + 3 * 1 + 1], pos[at + 3 * 1 + 2]);
    assert p(2) == Point(pos[at + 3 * 2], pos[at + 3 * 2 + 1], pos[at + 3 * 2 + 2]);
    assert p(3) == Point(pos[at + 3 * 3], pos[at + 3 * 3 + 1], pos[at + 3 * 3 + 2]);
  }

  lemma NextQuad(fr: Frame, faces: seq<Face>, fi: nat)
    requires fr.n > 0 && fi < |faces|
    ensures Mesh(fr, faces[..fi + 1]) == Mesh(fr, faces[..fi]) + Quad(fr, faces[fi])
  {
    hide Quad;
    assert faces[..fi + 1][..fi] == faces[..fi];
  }

  /** Each quad becomes its first and its second triangle. */
  method WriteTriangles(fr: Frame, ghost faces: seq<Face>, pos: seq<real>, norm: seq<int>, faceCount: nat)
    returns (mesh: seq<Triangle>)
    requires fr.n > 0 && faceCount == |faces| && Emitted(fr, faces, pos) && EmittedNormals(faces, norm)
    ensures mesh == Mesh(fr, faces) && |mesh| == 2 * faceCount
  {
    hide Corner, Normal, QuadAt, Mesh;
    mesh := [];
    NoQuads(fr);
    for fi := 0 to faceCount
      invariant mesh == Mesh(fr, faces[..fi]) && |mesh| == 2 * fi
    {
      QuadRead(fr, faces[fi], pos, 12 * fi);
      NextQuad(fr, faces, fi);
      var normal := Point(norm[fi * 3 + 0] as real, norm[fi * 3 + 1] as real, norm[fi * 3 + 2] as real);
      var v := fi * 12;
      var v0 := Point(pos[v + 0], pos[v + 1], pos[v + 2]);
      var v1 := Point(pos[v + 3], pos[v + 4], pos[v + 5]);
      var v2 := Point(pos[v + 6], pos[v + 7], pos[v + 8]);
      var v3 := Point(pos[v + 9], pos[v + 10], pos[v + 11]);
      mesh := mesh + [Triangle(normal, v0, v1, v2), Triangle(normal, v0, v2, v3)];
    }
    assert faces[..faceCount] == faces;
  }

  lemma NoQuads(fr: Frame)
    requires fr.n > 0
    ensures Mesh(fr, []) == []
  {
  }

  /** The depth byte a face carries is that of its own voxel. */
  predicate DepthOf(n: nat, data: seq<real>, iso: real, f: Face, depth: nat) {
    var at := IndexOf(n, f.voxel);
    0 <= at < |data| && 0.0 <= data[at] < iso && depth == DepthByte(data[at], iso)
  }

  lemma FaceInside(n: nat, vol: seq<bool>, i: nat)
    requires n > 0 && i < |SurfaceFaces(n, vol)|
    ensures Inside(n, vol, SurfaceFaces(n, vol)[i].voxel)
  {
    hide SurfaceFaces, Inside;
    var f := SurfaceFaces(n, vol)[i];
    assert f in multiset(SurfaceFaces(n, vol));
    EachFaceOnce(n, vol, f);
  }

  lemma DepthCarried(n: nat, data: seq<real>, iso: real, f: Face, dep: seq<nat>, depth: nat)
    requires |dep| == |data| && forall i :: 0 <= i < |data| ==> data[i] >= 0.0
    requires forall i :: 0 <= i < |data| ==> dep[i] == if data[i] < iso then DepthByte(data[i], iso) else 0
    requires Inside(n, Classified(data, iso), f.voxel)
    requires 0 <= IndexOf(n, f.voxel) < |dep| && depth == dep[IndexOf(n, f.voxel)]
    ensures DepthOf(n, data, iso, f, depth)
  {
    hide IndexOf, DepthByte;
  }

  lemma EveryBoundaryFace(n: nat, data: seq<real>, iso: real)
    requires n > 0 && |data| == n * n * n
    ensures forall f: Face :: multiset(SurfaceFaces(n, Classified(data, iso)))[f] ==
              if Below(n, data, iso, f.voxel) && !Below(n, data, iso, Neighbour(f.voxel, f.dir)) then 1 else 0
  {
    hide SurfaceFaces, Below;
    forall f: Face
      ensures multiset(SurfaceFaces(n, Classified(data, iso)))[f] ==
              if Below(n, data, iso, f.voxel) && !Below(n, data, iso, Neighbour(f.voxel, f.dir)) then 1 else 0
    {
      BoundaryFaces(n, data, iso, f);
    }
  }

  /** The exported surface is closed and encloses exactly the voxels below the threshold. */
  method TransitionVoxels(fr: Frame, data: seq<real>, iso: real)
    returns (mesh: seq<Triangle>, depth: seq<nat>, faceCount: nat, voxelCount: nat)
    requires fr.n > 0 && |data| == fr.n * fr.n * fr.n && forall i :: 0 <= i < |data| ==> data[i] >= 0.0
    ensures mesh == Mesh(fr, SurfaceFaces(fr.n, Classified(data, iso)))
    ensures Watertight(mesh) && |mesh| == 2 * faceCount && |depth| == faceCount
    ensures SixVolume(mesh) == 6.0 * Cube(CellSize(fr)) * voxelCount as real
    ensures var pairs := (d: Direction) => Pairs(fr.n, Classified(data, iso), d);
            faceCount == 6 * voxelCount - 2 * (pairs(0) + pairs(2) + pairs(4))
    ensures var faces := SurfaceFaces(fr.n, Classified(data, iso));
            |faces| == faceCount && forall i :: 0 <= i < faceCount ==> DepthOf(fr.n, data, iso, faces[i], depth[i])
    ensures voxelCount == |set i: nat | i < |data| && data[i] < iso|
    ensures forall f: Face :: multiset(SurfaceFaces(fr.n, Classified(data, iso)))[f] ==
              if Below(fr.n, data, iso, f.voxel) && !Below(fr.n, data, iso, Neighbour(f.voxel, f.dir)) then 1 else 0
  {
    hide Below, Neighbour, DepthOf, IndexOf, Inside, SurfaceFaces, Mesh, Watertight, Pairs, Voxels, SixVolume, Cube, CellSize, Corner, QuadAt;
    var vol, dep, count := Classify(data, iso);
    voxelCount := count;
    var pos, norm, depths := EmitFaces(fr, vol, dep);
    depth, faceCount := depths, |depths|;
    mesh := WriteTriangles(fr, SurfaceFaces(fr.n, vol[..]), pos, norm, faceCount);
    SurfaceCloses(fr, vol[..]);
    SurfaceEncloses(fr, vol[..]);
    FaceCount(fr.n, vol[..]);
    var faces := SurfaceFaces(fr.n, vol[..]);
    forall i | 0 <= i < faceCount
      ensures DepthOf(fr.n, data, iso, faces[i], depth[i])
    {
      FaceInside(fr.n, vol[..], i);
      DepthCarried(fr.n, data, iso, faces[i], dep[..], depth[i]);
    }
    EveryBoundaryFace(fr.n, data, iso);
  }
}
