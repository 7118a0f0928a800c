/** Generating points that do not overlap: a point that is taken already is moved along the diagonal
    until it is free. */
module PointGenerators {
  type Point = (real, real)

  function Shifted(p: Point, increment: real, k: nat): Point {
    (p.0 + k as real * increment, p.1 + k as real * increment)
  }

  function Add(x: real, dx: real): real {
    x + dx
  }

  lemma ShiftOnce(p: Point, increment: real, k: nat)
    ensures Shifted(p, increment, k + 1)
         == (Add(Shifted(p, increment, k).0, increment), Add(Shifted(p, increment, k).1, increment))
  {
    assert (k + 1) as real * increment == k as real * increment + increment;
  }

  /** The points that a search from p has not passed yet. */
  ghost function NotPassed(points: set<Point>, p: Point, increment: real): set<Point> {
    set q | q in points && (if increment > 0.0 then q.0 >= p.0 else q.0 <= p.0)
  }

  lemma PassesOne(points: set<Point>, p: Point, next: Point, increment: real)
    requires p in points && increment != 0.0 && next.0 == Add(p.0, increment)
    ensures NotPassed(points, next, increment) < NotPassed(points, p, increment)
  {
    assert p in NotPassed(points, p, increment) && p !in NotPassed(points, next, increment);
    forall q | q in NotPassed(points, next, increment)
      ensures q in NotPassed(points, p, increment)
    {
    }
  }

  class PointGenerator {
    const increment: real
    var points: set<Point>

    constructor (increment: real)
      ensures points == {} && this.increment == increment
    {
      this.increment := increment;
      points := {};
    }

    method AddPoint(point: Point)
      modifies this
      ensures points == old(points) + {point}
    {
      points := points + {point};
    }

    method AddPoints(given: seq<Point>)
      modifies this
      ensures points == old(points) + set p | p in given
    {
      for k := 0 to |given|
        invariant points == old(points) + set p | p in given[..k]
      {
        assert given[..k + 1] == given[..k] + [given[k]];
        AddPoint(given[k]);
      }
      assert given[..|given|] == given;
    }

    /** Moves the given array, which the caller keeps, to the first free point on its diagonal. The
        search ends for every finite set of points, unless the increment is zero and the point taken. */
    method GenerateAndAdd(reference: array<real>) returns (newPoint: array<real>, ghost k: nat)
      requires reference.Length == 2
      requires increment != 0.0 || (reference[0], reference[1]) !in points
      modifies this, reference
      ensures newPoint == reference
      ensures var start, point := (old(reference[0]), old(reference[1])), (newPoint[0], newPoint[1]);
        && point == Shifted(start, increment, k) && point !in old(points)
        && (forall j :: 0 <= j < k ==> Shifted(start, increment, j) in old(points))
        && points == old(points) + {point}
    {
      ghost var start := (reference[0], reference[1]);
      newPoint, k := reference, 0;
      assert Shifted(start, increment, 0) == start by { assert 0 as real * increment == 0.0; }
      while (newPoint[0], newPoint[1]) in points
        invariant newPoint == reference && points == old(points)
        invariant (newPoint[0], newPoint[1]) == Shifted(start, increment, k)
        invariant forall j :: 0 <= j < k ==> Shifted(start, increment, j) in points
        invariant increment != 0.0 || (newPoint[0], newPoint[1]) !in points
        decreases NotPassed(points, (newPoint[0], newPoint[1]), increment)
      {
        ghost var p := (newPoint[0], newPoint[1]);
        ShiftOnce(start, increment, k);
        newPoint[0], newPoint[1] := Add(newPoint[0], increment), Add(newPoint[1], increment);
        k := k + 1;
        PassesOne(points, p, (newPoint[0], newPoint[1]), increment);
      }
      AddPoint((newPoint[0], newPoint[1]));
    }

    /** A point that is given as a list or a tuple is copied first. */
    method GenerateFrom(reference: Point) returns (point: Point, ghost k: nat)
      requires increment != 0.0 || reference !in points
      modifies this
      ensures point == Shifted(reference, increment, k) && point !in old(points)
      ensures forall j :: 0 <= j < k ==> Shifted(reference, increment, j) in old(points)
      ensures points == old(points) + {point}
    {
      var copy := new real[2];
      copy[0], copy[1] := reference.0, reference.1;
      var moved;
      moved, k := GenerateAndAdd(copy);
      point := (moved[0], moved[1]);
    }

    /** Over any run the generated points are distinct, from each other and from all earlier points,
        and each lies a whole number of increments from its reference. */
    method GenerateAll(references: seq<Point>) returns (generated: seq<Point>, ghost shifts: seq<nat>)
      requires increment != 0.0
      modifies this
      ensures |generated| == |shifts| == |references|
      ensures forall i :: 0 <= i < |generated| ==>
        generated[i] == Shifted(references[i], increment, shifts[i]) && generated[i] !in old(points)
      ensures forall i, j :: 0 <= i < j < |generated| ==> generated[i] != generated[j]
      ensures points == old(points) + set p | p in generated
    {
      generated, shifts := [], [];
      for i := 0 to |references|
        invariant |generated| == |shifts| == i
        invariant forall j :: 0 <= j < i ==>
          generated[j] == Shifted(references[j], increment, shifts[j]) && generated[j] !in old(points)
        invariant forall j, k :: 0 <= j < k < i ==> generated[j] != generated[k]
        invariant points == old(points) + set p | p in generated
      {
        var point, k := GenerateFrom(references[i]);
        assert forall j :: 0 <= j < i ==> generated[j] in generated;
        generated, shifts := generated + [point], shifts + [k];
      }
    }
  }

  /** With an increment of zero a taken point is never left. */
  lemma ZeroIncrementStays(p: Point, points: set<Point>, k: nat)
    requires p in points
    ensures Shifted(p, 0.0, k) in points
  {
    assert k as real * 0.0 == 0.0;
  }

  /** The number of increments is determined by the point. */
  lemma ShiftIsUnique(p: Point, increment: real, j: nat, k: nat)
    requires increment != 0.0 && Shifted(p, increment, j) == Shifted(p, increment, k)
    ensures j == k
  {
    assert (j as real - k as real) * increment == 0.0;
  }
}
