/**
 * The closed axis-aligned box between two block corners and the order in which the
 * capture enumerates its integer points: x outermost, then y, then z, each ascending.
 */
module Envelope {

  datatype Point = Point(x: int, y: int, z: int)

  /** The corner of the box with the smaller coordinate on every axis. */
  function Min(a: Point, b: Point): (lo: Point)
    ensures lo.x <= a.x && lo.x <= b.x && (lo.x == a.x || lo.x == b.x)
    ensures lo.y <= a.y && lo.y <= b.y && (lo.y == a.y || lo.y == b.y)
    ensures lo.z <= a.z && lo.z <= b.z && (lo.z == a.z || lo.z == b.z)
  {
    Point(if a.x <= b.x then a.x else b.x, if a.y <= b.y then a.y else b.y,
          if a.z <= b.z then a.z else b.z)
  }

  /** The corner of the box with the larger coordinate on every axis. */
  function Max(a: Point, b: Point): (hi: Point)
    ensures hi.x >= a.x && hi.x >= b.x && (hi.x == a.x || hi.x == b.x)
    ensures hi.y >= a.y && hi.y >= b.y && (hi.y == a.y || hi.y == b.y)
    ensures hi.z >= a.z && hi.z >= b.z && (hi.z == a.z || hi.z == b.z)
  {
    Point(if a.x >= b.x then a.x else b.x, if a.y >= b.y then a.y else b.y,
          if a.z >= b.z then a.z else b.z)
  }

  predicate Within(p: Point, lo: Point, hi: Point)
  {
    lo.x <= p.x <= hi.x && lo.y <= p.y <= hi.y && lo.z <= p.z <= hi.z
  }

  function Abs(n: int): nat { if n < 0 then -n else n }

  /** The points (x, y, lz) .. (x, y, hz), ascending in z. */
  function Row(x: int, y: int, lz: int, hz: int): seq<Point>
    decreases hz - lz
  {
    if hz < lz then [] else Row(x, y, lz, hz - 1) + [Point(x, y, hz)]
  }

  /** The rows at x for y = ly .. hy, ascending in y. */
  function Slab(x: int, ly: int, hy: int, lz: int, hz: int): seq<Point>
    decreases hy - ly
  {
    if hy < ly then [] else Slab(x, ly, hy - 1, lz, hz) + Row(x, hy, lz, hz)
  }

  /** The slabs for x = lo.x .. hi.x, ascending in x: every point of the box, once. */
  function Box(lo: Point, hi: Point): seq<Point>
    decreases hi.x - lo.x
  {
    if hi.x < lo.x then [] else Box(lo, hi.(x := hi.x - 1)) + Slab(hi.x, lo.y, hi.y, lo.z, hi.z)
  }

  predicate Distinct<T(==)>(s: seq<T>)
  {
    forall i, j :: 0 <= i < j < |s| ==> s[i] != s[j]
  }

  lemma DistinctConcat<T>(a: seq<T>, b: seq<T>)
    requires Distinct(a) && Distinct(b)
    requires forall p :: p in a ==> p !in b
    ensures Distinct(a + b)
  {
    forall i, j | 0 <= i < j < |a + b| ensures (a + b)[i] != (a + b)[j] {
      if j < |a| {
      } else if i >= |a| {
        assert (a + b)[i] == b[i - |a|] && (a + b)[j] == b[j - |a|];
      } else {
        assert (a + b)[i] in a && (a + b)[j] in b;
      }
    }
  }

  lemma MulSucc(n: int, a: int)
    ensures (n + 1) * a == n * a + a
  {
  }

  lemma MulAssoc(a: int, b: int, c: int)
    ensures a * (b * c) == a * b * c
  {
  }

  lemma {:induction false} RowFacts(x: int, y: int, lz: int, hz: int)
    requires lz <= hz + 1
    ensures |Row(x, y, lz, hz)| == hz - lz + 1
    ensures forall p :: p in Row(x, y, lz, hz) <==> p.x == x && p.y == y && lz <= p.z <= hz
    ensures Distinct(Row(x, y, lz, hz))
    decreases hz - lz
  {
    if hz >= lz {
      RowFacts(x, y, lz, hz - 1);
      DistinctConcat(Row(x, y, lz, hz - 1), [Point(x, y, hz)]);
    }
  }

  lemma {:induction false} SlabLength(x: int, ly: int, hy: int, lz: int, hz: int)
    requires ly <= hy + 1 && lz <= hz + 1
    ensures |Slab(x, ly, hy, lz, hz)| == (hy - ly + 1) * (hz - lz + 1)
    decreases hy - ly
  {
    if hy >= ly {
      SlabLength(x, ly, hy - 1, lz, hz);
      RowFacts(x, hy, lz, hz);
      MulSucc(hy - ly, hz - lz + 1);
    }
  }

  lemma {:induction false} SlabContents(x: int, ly: int, hy: int, lz: int, hz: int)
    requires lz <= hz + 1
    ensures forall p :: p in Slab(x, ly, hy, lz, hz) <==>
      p.x == x && ly <= p.y <= hy && lz <= p.z <= hz
    ensures Distinct(Slab(x, ly, hy, lz, hz))
    decreases hy - ly
  {
    if hy >= ly {
      SlabContents(x, ly, hy - 1, lz, hz);
      RowFacts(x, hy, lz, hz);
      DistinctConcat(Slab(x, ly, hy - 1, lz, hz), Row(x, hy, lz, hz));
    }
  }

  /** The box enumeration has one entry per point of the closed box. */
  lemma {:induction false} BoxLength(lo: Point, hi: Point)
    requires lo.x <= hi.x + 1 && lo.y <= hi.y + 1 && lo.z <= hi.z + 1
    ensures |Box(lo, hi)| == (hi.x - lo.x + 1) * ((hi.y - lo.y + 1) * (hi.z - lo.z + 1))
    decreases hi.x - lo.x
  {
    if hi.x >= lo.x {
      var hi' := hi.(x := hi.x - 1);
      BoxLength(lo, hi');
      SlabLength(hi.x, lo.y, hi.y, lo.z, hi.z);
      MulSucc(hi.x - lo.x, (hi.y - lo.y + 1) * (hi.z - lo.z + 1));
    }
  }

  /** The box enumeration holds exactly the points of the closed box, each once. */
  lemma {:induction false} BoxContents(lo: Point, hi: Point)
    requires lo.y <= hi.y + 1 && lo.z <= hi.z + 1
    ensures forall p :: p in Box(lo, hi) <==> Within(p, lo, hi)
    ensures Distinct(Box(lo, hi))
    decreases hi.x - lo.x
  {
    if hi.x >= lo.x {
      var hi' := hi.(x := hi.x - 1);
      BoxContents(lo, hi');
      SlabContents(hi.x, lo.y, hi.y, lo.z, hi.z);
      DistinctConcat(Box(lo, hi'), Slab(hi.x, lo.y, hi.y, lo.z, hi.z));
    }
  }

  /** The box between two corners does not depend on which corner comes first. */
  lemma EnvelopeSymmetric(a: Point, b: Point)
    ensures Min(a, b) == Min(b, a) && Max(a, b) == Max(b, a)
    ensures Box(Min(a, b), Max(a, b)) == Box(Min(b, a), Max(b, a))
  {
  }

  /** The number of block positions in the closed envelope of two corners. */
  function Volume(a: Point, b: Point): nat
  {
    (Abs(a.x - b.x) + 1) * (Abs(a.y - b.y) + 1) * (Abs(a.z - b.z) + 1)
  }

  /** The enumeration of the envelope of two corners: its size and exactly its points. */
  lemma EnvelopeFacts(a: Point, b: Point)
    ensures |Box(Min(a, b), Max(a, b))| == Volume(a, b)
    ensures forall p :: p in Box(Min(a, b), Max(a, b)) <==> Within(p, Min(a, b), Max(a, b))
    ensures Distinct(Box(Min(a, b), Max(a, b)))
  {
    var lo, hi := Min(a, b), Max(a, b);
    BoxLength(lo, hi);
    BoxContents(lo, hi);
    var dx, dy, dz := Abs(a.x - b.x), Abs(a.y - b.y), Abs(a.z - b.z);
    assert hi.x - lo.x == dx;
    assert hi.y - lo.y == dy;
    assert hi.z - lo.z == dz;
    MulAssoc(dx + 1, dy + 1, dz + 1);
  }

  /** The innermost loop of the listing: append (x, y, z) for z = lz .. hz. */
  method AppendRow(coords: seq<Point>, x: int, y: int, lz: int, hz: int)
    returns (out: seq<Point>)
    ensures out == coords + Row(x, y, lz, hz)
  {
    out := coords;
    var z := lz;
    while z <= hz
      invariant lz <= z && (z <= hz + 1 || z == lz)
      invariant out == coords + Row(x, y, lz, z - 1)
      decreases hz - z
    {
      out := out + [Point(x, y, z)];
      z := z + 1;
    }
  }

  /** The middle loop of the listing: append the rows of x for y = ly .. hy. */
  method AppendSlab(coords: seq<Point>, x: int, ly: int, hy: int, lz: int, hz: int)
    returns (out: seq<Point>)
    ensures out == coords + Slab(x, ly, hy, lz, hz)
  {
    out := coords;
    var y := ly;
    while y <= hy
      invariant ly <= y && (y <= hy + 1 || y == ly)
      invariant out == coords + Slab(x, ly, y - 1, lz, hz)
      decreases hy - y
    {
      out := AppendRow(out, x, y, lz, hz);
      y := y + 1;
    }
  }

  /**
   * The nested loops that list every point from lo to hi, x outermost and z innermost,
   * appending each to a list.
   */
  method Coordinates(lo: Point, hi: Point) returns (coords: seq<Point>)
    ensures coords == Box(lo, hi)
  {
    coords := [];
    var x := lo.x;
    while x <= hi.x
      invariant lo.x <= x && (x <= hi.x + 1 || x == lo.x)
      invariant coords == Box(lo, hi.(x := x - 1))
      decreases hi.x - x
    {
      coords := AppendSlab(coords, x, lo.y, hi.y, lo.z, hi.z);
      assert hi.(x := x - 1).(x := x) == hi.(x := x);
      x := x + 1;
    }
    if lo.x <= hi.x {
      assert hi.(x := x - 1) == hi;
    }
  }
}
