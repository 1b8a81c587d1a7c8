/**
 * The partition of a region into pieces the host accepts in one call
 * (64 x 256 x 64 blocks). Offsets are taken relative to the region's
 * lower corner, stepping by the limit along each axis; z is outermost,
 * then y, then x. A piece spans from its offset up to the next step or
 * the end of the region, whichever comes first.
 */
module Chunks {
  import opened Vectors

  const MaxSize := Vec(64, 256, 64)

  /** A region is split when any axis exceeds the limit. */
  predicate NeedsChunks(size: Vec)
  {
    size.x > MaxSize.x || size.y > MaxSize.y || size.z > MaxSize.z
  }

  /** `from, from + step, ...` while below `n`: the source's `for (v = 0; v < n; v += step)`. */
  function AxisFrom(from: int, n: int, step: int): seq<int>
    requires step > 0
    decreases n - from
  {
    if from >= n then [] else [from] + AxisFrom(from + step, n, step)
  }

  function Row(xs: seq<int>, y: int, z: int): seq<Vec>
  {
    if xs == [] then [] else [Vec(xs[0], y, z)] + Row(xs[1..], y, z)
  }

  function Plane(xs: seq<int>, ys: seq<int>, z: int): seq<Vec>
  {
    if ys == [] then [] else Row(xs, ys[0], z) + Plane(xs, ys[1..], z)
  }

  function Grid(xs: seq<int>, ys: seq<int>, zs: seq<int>): seq<Vec>
  {
    if zs == [] then [] else Plane(xs, ys, zs[0]) + Grid(xs, ys, zs[1..])
  }

  function XSteps(size: Vec): seq<int> { AxisFrom(0, size.x, MaxSize.x) }
  function YSteps(size: Vec): seq<int> { AxisFrom(0, size.y, MaxSize.y) }
  function ZSteps(size: Vec): seq<int> { AxisFrom(0, size.z, MaxSize.z) }

  /** The offsets of every piece, in the order the save loop visits them. */
  function ChunkOffsets(size: Vec): seq<Vec>
  {
    Grid(XSteps(size), YSteps(size), ZSteps(size))
  }

  /** The exclusive upper corner of the piece at `off`, relative to the region's lower corner. */
  function ChunkEnd(size: Vec, off: Vec): Vec
  {
    RegionMin(AddLocations(off, MaxSize), size)
  }

  /** The relative block `p` lies in the piece at `off`. */
  predicate InChunk(size: Vec, off: Vec, p: Vec)
  {
    var e := ChunkEnd(size, off);
    off.x <= p.x < e.x && off.y <= p.y < e.y && off.z <= p.z < e.z
  }

  /** The relative block `p` lies in the region. */
  predicate InRegion(size: Vec, p: Vec)
  {
    0 <= p.x < size.x && 0 <= p.y < size.y && 0 <= p.z < size.z
  }

  /** `a` is visited before `b`: z first, then y, then x. */
  predicate Before(a: Vec, b: Vec)
  {
    a.z < b.z || (a.z == b.z && (a.y < b.y || (a.y == b.y && a.x < b.x)))
  }

  predicate Increasing(s: seq<Vec>)
  {
    forall i, j :: 0 <= i < j < |s| ==> Before(s[i], s[j])
  }

  predicate IntsIncreasing(s: seq<int>)
  {
    forall i, j :: 0 <= i < j < |s| ==> s[i] < s[j]
  }

  // ---------------------------------------------------------------------
  // One axis.

  lemma {:induction false} AxisMember(from: int, n: int, step: int, v: int)
    requires step == 64 || step == 256
    requires from % step == 0
    ensures v in AxisFrom(from, n, step) <==> from <= v < n && v % step == 0
    decreases n - from
  {
    if from < n {
      AxisMember(from + step, n, step, v);
      if from < v < from + step {
        assert v % step != 0;
      }
    }
  }

  lemma {:induction false} AxisIncreasing(from: int, n: int, step: int)
    requires step > 0
    ensures IntsIncreasing(AxisFrom(from, n, step))
    ensures forall v :: v in AxisFrom(from, n, step) ==> from <= v < n
    decreases n - from
  {
    if from < n {
      AxisIncreasing(from + step, n, step);
      var rest := AxisFrom(from + step, n, step);
      assert AxisFrom(from, n, step) == [from] + rest;
      assert forall j :: 0 <= j < |rest| ==> from < rest[j] by {
        forall j | 0 <= j < |rest| ensures from < rest[j] { assert rest[j] in rest; }
      }
    }
  }

  /** The number of steps is the least count that reaches `n`: ceil((n - from) / step). */
  lemma {:induction false} AxisLength(from: int, n: int, step: int)
    requires step == 64 || step == 256
    ensures |AxisFrom(from, n, step)| == if from >= n then 0 else (n - from + step - 1) / step
    decreases n - from
  {
    if from < n {
      AxisLength(from + step, n, step);
      if step == 64 {
        assert (n - from + 63) / 64 == 1 + (if from + 64 >= n then 0 else (n - from - 1) / 64);
      } else {
        assert (n - from + 255) / 256 == 1 + (if from + 256 >= n then 0 else (n - from - 1) / 256);
      }
    }
  }

  // ---------------------------------------------------------------------
  // Membership in the grid.

  lemma {:induction false} RowMember(xs: seq<int>, y: int, z: int, v: Vec)
    ensures v in Row(xs, y, z) <==> v.x in xs && v.y == y && v.z == z
  {
    if xs != [] {
      RowMember(xs[1..], y, z, v);
      assert xs == [xs[0]] + xs[1..];
    }
  }

  lemma {:induction false} PlaneMember(xs: seq<int>, ys: seq<int>, z: int, v: Vec)
    ensures v in Plane(xs, ys, z) <==> v.x in xs && v.y in ys && v.z == z
  {
    if ys != [] {
      RowMember(xs, ys[0], z, v);
      PlaneMember(xs, ys[1..], z, v);
      assert ys == [ys[0]] + ys[1..];
    }
  }

  lemma {:induction false} GridMember(xs: seq<int>, ys: seq<int>, zs: seq<int>, v: Vec)
    ensures v in Grid(xs, ys, zs) <==> v.x in xs && v.y in ys && v.z in zs
  {
    if zs != [] {
      PlaneMember(xs, ys, zs[0], v);
      GridMember(xs, ys, zs[1..], v);
      assert zs == [zs[0]] + zs[1..];
    }
  }

  /** An offset is a piece of the region exactly when it is a multiple of the limit inside the region. */
  lemma ChunkOffsetMember(size: Vec, off: Vec)
    ensures off in ChunkOffsets(size) <==>
      && InRegion(size, off)
      && off.x % MaxSize.x == 0 && off.y % MaxSize.y == 0 && off.z % MaxSize.z == 0
  {
    GridMember(XSteps(size), YSteps(size), ZSteps(size), off);
    AxisMember(0, size.x, MaxSize.x, off.x);
    AxisMember(0, size.y, MaxSize.y, off.y);
    AxisMember(0, size.z, MaxSize.z, off.z);
  }

  // ---------------------------------------------------------------------
  // Order and count.

  lemma ConcatIncreasing(a: seq<Vec>, b: seq<Vec>)
    requires Increasing(a) && Increasing(b)
    requires forall u, v :: u in a && v in b ==> Before(u, v)
    ensures Increasing(a + b)
  {
    forall i, j | 0 <= i < j < |a + b|
      ensures Before((a + b)[i], (a + b)[j])
    {
      if j < |a| {
      } else if i >= |a| {
        assert (a + b)[i] == b[i - |a|] && (a + b)[j] == b[j - |a|];
      } else {
        assert (a + b)[i] in a && (a + b)[j] in b;
      }
    }
  }

  lemma {:induction false} RowIncreasing(xs: seq<int>, y: int, z: int)
    requires IntsIncreasing(xs)
    ensures Increasing(Row(xs, y, z))
  {
    if xs != [] {
      RowIncreasing(xs[1..], y, z);
      forall v | v in Row(xs[1..], y, z)
        ensures Before(Vec(xs[0], y, z), v)
      {
        RowMember(xs[1..], y, z, v);
      }
      ConcatIncreasing([Vec(xs[0], y, z)], Row(xs[1..], y, z));
    }
  }

  lemma {:induction false} PlaneIncreasing(xs: seq<int>, ys: seq<int>, z: int)
    requires IntsIncreasing(xs) && IntsIncreasing(ys)
    ensures Increasing(Plane(xs, ys, z))
  {
    if ys != [] {
      RowIncreasing(xs, ys[0], z);
      PlaneIncreasing(xs, ys[1..], z);
      forall u, v | u in Row(xs, ys[0], z) && v in Plane(xs, ys[1..], z)
        ensures Before(u, v)
      {
        RowMember(xs, ys[0], z, u);
        PlaneMember(xs, ys[1..], z, v);
      }
      ConcatIncreasing(Row(xs, ys[0], z), Plane(xs, ys[1..], z));
    }
  }

  lemma {:induction false} GridIncreasing(xs: seq<int>, ys: seq<int>, zs: seq<int>)
    requires IntsIncreasing(xs) && IntsIncreasing(ys) && IntsIncreasing(zs)
    ensures Increasing(Grid(xs, ys, zs))
  {
    if zs != [] {
      PlaneIncreasing(xs, ys, zs[0]);
      GridIncreasing(xs, ys, zs[1..]);
      forall u, v | u in Plane(xs, ys, zs[0]) && v in Grid(xs, ys, zs[1..])
        ensures Before(u, v)
      {
        PlaneMember(xs, ys, zs[0], u);
        GridMember(xs, ys, zs[1..], v);
      }
      ConcatIncreasing(Plane(xs, ys, zs[0]), Grid(xs, ys, zs[1..]));
    }
  }

  /** The pieces are listed z outermost, then y, then x, each offset once. */
  lemma ChunkOrder(size: Vec)
    ensures Increasing(ChunkOffsets(size))
  {
    AxisIncreasing(0, size.x, MaxSize.x);
    AxisIncreasing(0, size.y, MaxSize.y);
    AxisIncreasing(0, size.z, MaxSize.z);
    GridIncreasing(XSteps(size), YSteps(size), ZSteps(size));
  }

  lemma {:induction false} RowLength(xs: seq<int>, y: int, z: int)
    ensures |Row(xs, y, z)| == |xs|
  {
    if xs != [] { RowLength(xs[1..], y, z); }
  }

  lemma {:induction false} PlaneLength(xs: seq<int>, ys: seq<int>, z: int)
    ensures |Plane(xs, ys, z)| == |xs| * |ys|
  {
    if ys != [] {
      RowLength(xs, ys[0], z);
      PlaneLength(xs, ys[1..], z);
      assert |xs| * |ys| == |xs| + |xs| * (|ys| - 1);
    }
  }

  lemma {:induction false} GridLength(xs: seq<int>, ys: seq<int>, zs: seq<int>)
    ensures |Grid(xs, ys, zs)| == |xs| * |ys| * |zs|
  {
    if zs != [] {
      PlaneLength(xs, ys, zs[0]);
      GridLength(xs, ys, zs[1..]);
      assert |xs| * |ys| * |zs| == |xs| * |ys| + |xs| * |ys| * (|zs| - 1);
    }
  }

  /** There are ceil(sx/64) * ceil(sy/256) * ceil(sz/64) pieces. */
  lemma ChunkCount(size: Vec)
    requires size.x >= 1 && size.y >= 1 && size.z >= 1
    ensures |ChunkOffsets(size)| == ((size.x + 63) / 64) * ((size.y + 255) / 256) * ((size.z + 63) / 64)
  {
    AxisLength(0, size.x, MaxSize.x);
    AxisLength(0, size.y, MaxSize.y);
    AxisLength(0, size.z, MaxSize.z);
    GridLength(XSteps(size), YSteps(size), ZSteps(size));
  }

  // ---------------------------------------------------------------------
  // Tiling.

  /** Every piece is non-empty, no larger than the limit, and inside the region. */
  lemma ChunkInside(size: Vec, off: Vec, p: Vec)
    requires off in ChunkOffsets(size)
    ensures InChunk(size, off, off)
    ensures var e := ChunkEnd(size, off);
      e.x - off.x <= MaxSize.x && e.y - off.y <= MaxSize.y && e.z - off.z <= MaxSize.z
    ensures InChunk(size, off, p) ==> InRegion(size, p)
  {
    ChunkOffsetMember(size, off);
  }

  /** The offset of the piece that holds the relative block `p`. */
  function ChunkOf(p: Vec): Vec
  {
    Vec(p.x - p.x % MaxSize.x, p.y - p.y % MaxSize.y, p.z - p.z % MaxSize.z)
  }

  lemma AlignedUnique(a: int, b: int, p: int, step: int)
    requires step == 64 || step == 256
    requires a % step == 0 && b % step == 0
    requires a <= p < a + step && b <= p < b + step
    ensures a == b
  {
  }

  /**
   * The pieces tile the region: every block of the region lies in the piece
   * `ChunkOf(p)`, and in no other.
   */
  lemma ChunksTile(size: Vec, p: Vec)
    requires InRegion(size, p)
    ensures ChunkOf(p) in ChunkOffsets(size) && InChunk(size, ChunkOf(p), p)
    ensures forall off :: off in ChunkOffsets(size) && InChunk(size, off, p) ==> off == ChunkOf(p)
  {
    ChunkOffsetMember(size, ChunkOf(p));
    forall off | off in ChunkOffsets(size) && InChunk(size, off, p)
      ensures off == ChunkOf(p)
    {
      ChunkOffsetMember(size, off);
      var c := ChunkOf(p);
      AlignedUnique(off.x, c.x, p.x, MaxSize.x);
      AlignedUnique(off.y, c.y, p.y, MaxSize.y);
      AlignedUnique(off.z, c.z, p.z, MaxSize.z);
    }
  }

  /** No block lies in two listed pieces: distinct positions hold disjoint pieces. */
  lemma ChunksDisjoint(size: Vec, i: int, j: int, p: Vec)
    requires 0 <= i < |ChunkOffsets(size)| && 0 <= j < |ChunkOffsets(size)| && i != j
    ensures !(InChunk(size, ChunkOffsets(size)[i], p) && InChunk(size, ChunkOffsets(size)[j], p))
  {
    var cs := ChunkOffsets(size);
    ChunkOrder(size);
    if InChunk(size, cs[i], p) && InChunk(size, cs[j], p) {
      ChunkInside(size, cs[i], p);
      ChunksTile(size, p);
      assert false;
    }
  }
}
