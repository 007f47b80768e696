/**
  The text blocks the Vision API returns (EntityAnnotation with a description
  and the integer vertices of its bounding polygon), the geometry
  TransController.java derives from them, and the two comparators its streams
  sort by.
 */
module Annotations {
  import opened StableSort

  datatype Vertex = Vertex(x: int, y: int)

  datatype Annotation = Annotation(description: string, vertices: seq<Vertex>)

  /** Rectangle2D.Double(x, y, width, height) */
  datatype Rectangle = Rectangle(x: int, y: int, width: int, height: int)

  /**
    `boundingBoxToRectangle`: the rectangle with vertex 0 and vertex 2 as
    opposite corners (its width and height are negative when vertex 2 lies
    left of or above vertex 0).
   */
  function BoundingBoxToRectangle(vertices: seq<Vertex>): (r: Rectangle)
    requires |vertices| > 2
    ensures r.x == vertices[0].x && r.y == vertices[0].y
    ensures r.x + r.width == vertices[2].x && r.y + r.height == vertices[2].y
  {
    Rectangle(vertices[0].x, vertices[0].y, vertices[2].x - vertices[0].x, vertices[2].y - vertices[0].y)
  }

  /** `calculateBoundingBoxArea` */
  function Area(a: Annotation): (r: int)
    ensures |a.vertices| < 4 ==> r == 0
    ensures |a.vertices| >= 4 ==>
      r == (a.vertices[2].x - a.vertices[0].x) * (a.vertices[2].y - a.vertices[0].y)
  {
    if |a.vertices| < 4 then 0
    else
      var rect := BoundingBoxToRectangle(a.vertices);
      rect.width * rect.height
  }

  /**
    The area is positive exactly when there are at least four vertices and
    vertex 2 lies strictly below-right or strictly above-left of vertex 0.
   */
  lemma AreaPositive(a: Annotation)
    ensures Area(a) > 0 <==> (|a.vertices| >= 4 &&
      var v0, v2 := a.vertices[0], a.vertices[2];
      (v0.x < v2.x && v0.y < v2.y) || (v2.x < v0.x && v2.y < v0.y))
  {
    if |a.vertices| >= 4 {
      var w, h := a.vertices[2].x - a.vertices[0].x, a.vertices[2].y - a.vertices[0].y;
      if w > 0 && h > 0 { assert w * h > 0; }
      else if w < 0 && h < 0 { assert w * h == (-w) * (-h); assert (-w) * (-h) > 0; }
      else if w == 0 || h == 0 { assert w * h == 0; }
      else if w > 0 { assert w * (-h) > 0; }
      else { assert (-w) * h > 0; }
    }
  }

  datatype Axis = X | Y

  function Coordinate(v: Vertex, axis: Axis): int {
    match axis
    case X => v.x
    case Y => v.y
  }

  /** The smallest coordinate along `axis` over the vertices. */
  function MinCoordinate(vertices: seq<Vertex>, axis: Axis): (m: int)
    requires vertices != []
    ensures forall i :: 0 <= i < |vertices| ==> m <= Coordinate(vertices[i], axis)
    decreases |vertices|
  {
    if |vertices| == 1 then Coordinate(vertices[0], axis)
    else
      var rest := MinCoordinate(vertices[1..], axis);
      var here := Coordinate(vertices[0], axis);
      if here <= rest then here else rest
  }

  /** The minimum is the coordinate of some vertex and no vertex lies below it. */
  lemma {:induction false} MinCoordinateIsLeast(vertices: seq<Vertex>, axis: Axis)
    requires vertices != []
    ensures exists i :: 0 <= i < |vertices| && Coordinate(vertices[i], axis) == MinCoordinate(vertices, axis)
    ensures forall i :: 0 <= i < |vertices| ==> MinCoordinate(vertices, axis) <= Coordinate(vertices[i], axis)
    decreases |vertices|
  {
    if |vertices| == 1 {
      assert Coordinate(vertices[0], axis) == MinCoordinate(vertices, axis);
    } else {
      MinCoordinateIsLeast(vertices[1..], axis);
      var k :| 0 <= k < |vertices[1..]| && Coordinate(vertices[1..][k], axis) == MinCoordinate(vertices[1..], axis);
      if Coordinate(vertices[0], axis) > MinCoordinate(vertices[1..], axis) {
        assert Coordinate(vertices[k + 1], axis) == MinCoordinate(vertices, axis);
      } else {
        assert Coordinate(vertices[0], axis) == MinCoordinate(vertices, axis);
      }
      forall i | 1 <= i < |vertices| ensures MinCoordinate(vertices, axis) <= Coordinate(vertices[i], axis) {
        assert vertices[i] == vertices[1..][i - 1];
      }
    }
  }

  /** `getBoundingBoxLeft`: the least x of the vertices, or 0 without vertices. */
  function Left(a: Annotation): (r: int)
    ensures a.vertices == [] ==> r == 0
    ensures forall i :: 0 <= i < |a.vertices| ==> r <= a.vertices[i].x
  {
    if a.vertices == [] then 0 else MinCoordinate(a.vertices, X)
  }

  /** `getBoundingBoxTop`: the least y of the vertices, or 0 without vertices. */
  function Top(a: Annotation): (r: int)
    ensures a.vertices == [] ==> r == 0
    ensures forall i :: 0 <= i < |a.vertices| ==> r <= a.vertices[i].y
  {
    if a.vertices == [] then 0 else MinCoordinate(a.vertices, Y)
  }

  /**
    Left and top are 0 for a box without vertices, and otherwise the least x
    and the least y that some vertex has.
   */
  lemma LeftTopAreLeast(a: Annotation)
    ensures a.vertices == [] ==> Left(a) == 0 && Top(a) == 0
    ensures a.vertices != [] ==>
      && (exists i :: 0 <= i < |a.vertices| && a.vertices[i].x == Left(a))
      && (exists i :: 0 <= i < |a.vertices| && a.vertices[i].y == Top(a))
    ensures forall i :: 0 <= i < |a.vertices| ==> Left(a) <= a.vertices[i].x && Top(a) <= a.vertices[i].y
  {
    if a.vertices != [] {
      MinCoordinateIsLeast(a.vertices, X);
      MinCoordinateIsLeast(a.vertices, Y);
    }
  }

  /** The two comparators of the controller. */
  datatype Order =
    | ByAreaDescending   // comparingDouble(calculateBoundingBoxArea).reversed()
    | ByLeftThenTop      // comparingDouble(getBoundingBoxLeft).thenComparingDouble(getBoundingBoxTop)

  /** `compare(a, b) <= 0`: `a` may be placed before `b`. */
  predicate Precedes(o: Order, a: Annotation, b: Annotation): (r: bool)
    ensures a == b ==> r
    ensures !r && o.ByAreaDescending? ==> Area(b) > Area(a)
    ensures !r && o.ByLeftThenTop? ==> Left(b) < Left(a) || (Left(b) == Left(a) && Top(b) < Top(a))
  {
    match o
    case ByAreaDescending => Area(a) >= Area(b)
    case ByLeftThenTop => Left(a) < Left(b) || (Left(a) == Left(b) && Top(a) <= Top(b))
  }

  /** A comparator's "may come first" is total and transitive. */
  lemma ComparatorIsTotalPreorder(o: Order)
    ensures IsTotalPreorder(Comparator(o))
  {
    forall a, b ensures Comparator(o)(a, b) || Comparator(o)(b, a) {
      assert Comparator(o)(a, b) == Precedes(o, a, b);
      assert Comparator(o)(b, a) == Precedes(o, b, a);
    }
    forall a, b, c | Comparator(o)(a, b) && Comparator(o)(b, c) ensures Comparator(o)(a, c) {
      assert Precedes(o, a, b) && Precedes(o, b, c);
    }
  }

  /** `Comparator` as a function value, the form the stable sort takes. */
  function Comparator(o: Order): (Annotation, Annotation) -> bool {
    (a: Annotation, b: Annotation) => Precedes(o, a, b)
  }

  /** `stream().sorted(comparator)`: a permutation of the blocks. */
  function SortBy(o: Order, s: seq<Annotation>): (r: seq<Annotation>)
    ensures multiset(r) == multiset(s)
    ensures |r| == |s|
  {
    Sort(Comparator(o), s)
  }

  /** The sorted list is ordered by the comparator. */
  lemma SortByIsSorted(o: Order, s: seq<Annotation>)
    ensures Sorted(Comparator(o), SortBy(o, s))
  {
    ComparatorIsTotalPreorder(o);
    SortIsSorted(Comparator(o), s);
  }

  /** Blocks the comparator ties keep their input order: the sort is stable. */
  lemma SortByIsStable(o: Order, s: seq<Annotation>, e: Annotation)
    ensures TiedWith(Comparator(o), SortBy(o, s), e) == TiedWith(Comparator(o), s, e)
  {
    ComparatorIsTotalPreorder(o);
    SortIsStable(Comparator(o), s, e);
  }
}
