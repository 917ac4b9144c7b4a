/** Modes, rotations and affine transforms of a display, and the integer box
    that a transformed mode covers. */
module Geometry {

  /** The low four bits of a RandR rotation; `NoTurn` when none of them is set. */
  datatype Turn = Rotate0 | Rotate90 | Rotate180 | Rotate270 | NoTurn

  datatype Rotation = Rotation(turn: Turn, reflectX: bool, reflectY: bool)

  const UNROTATED := Rotation(Rotate0, false, false)

  datatype Mode = Mode(id: nat, width: nat, height: nat)

  /** The first two rows of a transform whose third row is (0, 0, 1). */
  datatype Matrix = Affine(a: real, b: real, c: real, d: real, e: real, f: real)

  datatype Transform = Transform(matrix: Matrix, filter: string, params: seq<int>)

  const IDENTITY := Transform(Affine(1.0, 0.0, 0.0, 0.0, 1.0, 0.0), "", [])

  datatype Point = Point(x: real, y: real)

  datatype Box = Box(x1: int, y1: int, x2: int, y2: int)

  /** The largest coordinate a transform may produce. */
  const COORDINATE_LIMIT := 32767.0

  function ModeWidth(mode: Mode, rotation: Rotation): nat {
    match rotation.turn
    case Rotate0 | Rotate180 => mode.width
    case Rotate90 | Rotate270 => mode.height
    case NoTurn => 0
  }

  function ModeHeight(mode: Mode, rotation: Rotation): nat {
    match rotation.turn
    case Rotate0 | Rotate180 => mode.height
    case Rotate90 | Rotate270 => mode.width
    case NoTurn => 0
  }

  function Row(a: real, b: real, c: real, p: Point): real {
    a * p.x + b * p.y + c
  }

  /** The exact image of a point. */
  function Image(t: Matrix, p: Point): Point {
    Point(Row(t.a, t.b, t.c, p), Row(t.d, t.e, t.f, p))
  }

  predicate WithinLimit(p: Point) {
    && -COORDINATE_LIMIT <= p.x <= COORDINATE_LIMIT
    && -COORDINATE_LIMIT <= p.y <= COORDINATE_LIMIT
  }

  /** A point whose image leaves the coordinate range keeps its old place. */
  function TransformPoint(t: Matrix, p: Point): Point {
    if WithinLimit(Image(t, p)) then Image(t, p) else p
  }

  function Ceiling(r: real): int {
    -((-r).Floor)
  }

  function PointBox(p: Point): Box {
    Box(p.x.Floor, p.y.Floor, Ceiling(p.x), Ceiling(p.y))
  }

  predicate Inside(p: Point, box: Box) {
    && box.x1 as real <= p.x <= box.x2 as real
    && box.y1 as real <= p.y <= box.y2 as real
  }

  predicate SubBox(inner: Box, outer: Box) {
    && outer.x1 <= inner.x1 && inner.x2 <= outer.x2
    && outer.y1 <= inner.y1 && inner.y2 <= outer.y2
  }

  ghost predicate AllInside(points: seq<Point>, box: Box) {
    forall i | 0 <= i < |points| :: Inside(points[i], box)
  }

  /** `box` is the least integer box around the points. */
  ghost predicate IsBounds(box: Box, points: seq<Point>) {
    && AllInside(points, box)
    && forall other: Box :: AllInside(points, other) ==> SubBox(box, other)
  }

  function Transformed(t: Matrix, points: seq<Point>): (r: seq<Point>)
    ensures |r| == |points|
  {
    seq(|points|, i requires 0 <= i < |points| => TransformPoint(t, points[i]))
  }

  function Join(a: Box, b: Box): Box {
    Box(if b.x1 < a.x1 then b.x1 else a.x1, if b.y1 < a.y1 then b.y1 else a.y1,
        if b.x2 > a.x2 then b.x2 else a.x2, if b.y2 > a.y2 then b.y2 else a.y2)
  }

  lemma PointBoxIsLeast(p: Point, other: Box)
    ensures Inside(p, other) ==> SubBox(PointBox(p), other)
  {
  }

  function BoundsOf(points: seq<Point>): Box
    requires |points| > 0
  {
    var last := |points| - 1;
    if last == 0 then PointBox(points[0]) else Join(BoundsOf(points[..last]), PointBox(points[last]))
  }

  lemma {:induction false} BoundsOfIsBounds(points: seq<Point>)
    requires |points| > 0
    ensures IsBounds(BoundsOf(points), points)
  {
    var last := |points| - 1;
    if last > 0 {
      var front := points[..last];
      BoundsOfIsBounds(front);
      forall i | 0 <= i < |points| ensures Inside(points[i], BoundsOf(points)) {
        if i < last { assert Inside(front[i], BoundsOf(front)); }
      }
      forall other: Box | AllInside(points, other) ensures SubBox(BoundsOf(points), other) {
        assert AllInside(front, other) by {
          assert forall i | 0 <= i < |front| :: front[i] == points[i];
        }
        assert Inside(points[last], other);
        PointBoxIsLeast(points[last], other);
        assert SubBox(BoundsOf(front), other);
      }
    }
  }

  method PathBounds(t: Matrix, points: seq<Point>) returns (box: Box)
    requires |points| > 0
    ensures box == BoundsOf(Transformed(t, points))
  {
    ghost var images := Transformed(t, points);
    box := Box(0, 0, 0, 0);
    var i := 0;
    while i < |points|
      invariant 0 <= i <= |points|
      invariant i > 0 ==> box == BoundsOf(images[..i])
    {
      var point := PointBox(TransformPoint(t, points[i]));
      assert i > 0 ==> images[..i + 1][..i] == images[..i];
      if i == 0 {
        box := point;
      } else {
        if point.x1 < box.x1 { box := box.(x1 := point.x1); }
        if point.y1 < box.y1 { box := box.(y1 := point.y1); }
        if point.x2 > box.x2 { box := box.(x2 := point.x2); }
        if point.y2 > box.y2 { box := box.(y2 := point.y2); }
      }
      i := i + 1;
    }
    assert images[..i] == images;
  }

  function Corners(width: nat, height: nat): (r: seq<Point>)
    ensures |r| == 4
  {
    [Point(0.0, 0.0), Point(width as real, 0.0), Point(width as real, height as real), Point(0.0, height as real)]
  }

  /** The box covered by a mode, as a value. */
  function ModeBox(mode: Mode, rotation: Rotation, t: Matrix): Box {
    BoundsOf(Transformed(t, Corners(ModeWidth(mode, rotation), ModeHeight(mode, rotation))))
  }

  method ModeGeometry(mode: Mode, rotation: Rotation, t: Matrix) returns (box: Box)
    ensures box == ModeBox(mode, rotation, t)
  {
    var rect := Corners(ModeWidth(mode, rotation), ModeHeight(mode, rotation));
    box := PathBounds(t, rect);
  }

  /** Every point of the rectangle that a mode scans out. */
  predicate InMode(p: Point, mode: Mode, rotation: Rotation) {
    && 0.0 <= p.x <= ModeWidth(mode, rotation) as real
    && 0.0 <= p.y <= ModeHeight(mode, rotation) as real
  }

  predicate CornersWithinLimit(mode: Mode, rotation: Rotation, t: Matrix) {
    var points := Corners(ModeWidth(mode, rotation), ModeHeight(mode, rotation));
    && WithinLimit(Image(t, points[0])) && WithinLimit(Image(t, points[1]))
    && WithinLimit(Image(t, points[2])) && WithinLimit(Image(t, points[3]))
  }

  lemma ScaledBetween(a: real, p: real, w: real)
    requires 0.0 <= p <= w
    ensures 0.0 <= a * p <= a * w || a * w <= a * p <= 0.0
  {
    if a >= 0.0 {
      assert a * (w - p) >= 0.0;
    } else {
      assert a * (w - p) <= 0.0;
    }
  }

  /** `u` lies between 0 and `uEnd`, and `v` between 0 and `vEnd`: their sum lies between the corner sums. */
  lemma SumBetween(u: real, uEnd: real, v: real, vEnd: real, c: real, low: real, high: real)
    requires 0.0 <= u <= uEnd || uEnd <= u <= 0.0
    requires 0.0 <= v <= vEnd || vEnd <= v <= 0.0
    requires low <= c <= high && low <= uEnd + c <= high
    requires low <= uEnd + vEnd + c <= high && low <= vEnd + c <= high
    ensures low <= u + v + c <= high
  {
  }

  /** One row of an affine map stays between its values at the corners of a rectangle. */
  lemma RowIsConvex(a: real, b: real, c: real, p: Point, w: real, h: real, low: real, high: real)
    requires 0.0 <= p.x <= w && 0.0 <= p.y <= h
    requires low <= Row(a, b, c, Point(0.0, 0.0)) <= high && low <= Row(a, b, c, Point(w, 0.0)) <= high
    requires low <= Row(a, b, c, Point(w, h)) <= high && low <= Row(a, b, c, Point(0.0, h)) <= high
    ensures low <= Row(a, b, c, p) <= high
  {
    ScaledBetween(a, p.x, w);
    ScaledBetween(b, p.y, h);
    SumBetween(a * p.x, a * w, b * p.y, b * h, c, low, high);
  }

  /** The four corners of the image lie in the box. */
  predicate CornersInBox(mode: Mode, rotation: Rotation, t: Matrix) {
    var points := Corners(ModeWidth(mode, rotation), ModeHeight(mode, rotation));
    var box := ModeBox(mode, rotation, t);
    && Inside(Image(t, points[0]), box) && Inside(Image(t, points[1]), box)
    && Inside(Image(t, points[2]), box) && Inside(Image(t, points[3]), box)
  }

  lemma ModeBoxCoversImages(mode: Mode, rotation: Rotation, t: Matrix, p: Point)
    requires CornersInBox(mode, rotation, t)
    requires InMode(p, mode, rotation)
    ensures Inside(Image(t, p), ModeBox(mode, rotation, t))
  {
    var w, h := ModeWidth(mode, rotation) as real, ModeHeight(mode, rotation) as real;
    var box := ModeBox(mode, rotation, t);
    RowIsConvex(t.a, t.b, t.c, p, w, h, box.x1 as real, box.x2 as real);
    RowIsConvex(t.d, t.e, t.f, p, w, h, box.y1 as real, box.y2 as real);
  }

  lemma CornersInside(mode: Mode, rotation: Rotation, t: Matrix)
    requires CornersWithinLimit(mode, rotation, t)
    ensures CornersInBox(mode, rotation, t)
  {
    var points := Corners(ModeWidth(mode, rotation), ModeHeight(mode, rotation));
    var box := ModeBox(mode, rotation, t);
    var images := Transformed(t, points);
    BoundsOfIsBounds(images);
    assert Inside(images[0], box) && Inside(images[1], box) && Inside(images[2], box) && Inside(images[3], box);
  }

  /** The box covers the whole image exactly when it covers the four corners of the
      image: a corner that leaves the coordinate range is silently left untransformed. */
  lemma {:induction false} CoverageCondition(mode: Mode, rotation: Rotation, t: Matrix)
    ensures (forall p | InMode(p, mode, rotation) :: Inside(Image(t, p), ModeBox(mode, rotation, t)))
            <==> CornersInBox(mode, rotation, t)
  {
    var points := Corners(ModeWidth(mode, rotation), ModeHeight(mode, rotation));
    if CornersInBox(mode, rotation, t) {
      forall p | InMode(p, mode, rotation) ensures Inside(Image(t, p), ModeBox(mode, rotation, t)) {
        ModeBoxCoversImages(mode, rotation, t, p);
      }
    }
    assert InMode(points[0], mode, rotation) && InMode(points[1], mode, rotation);
    assert InMode(points[2], mode, rotation) && InMode(points[3], mode, rotation);
  }

  /** Modes no larger than the coordinate range. */
  predicate Moderate(mode: Mode) {
    mode.width <= 32767 && mode.height <= 32767
  }

  /** For such modes that is so exactly when no corner leaves the coordinate range. */
  lemma CoverageOfModerate(mode: Mode, rotation: Rotation, t: Matrix)
    requires Moderate(mode)
    ensures CornersInBox(mode, rotation, t) <==> CornersWithinLimit(mode, rotation, t)
  {
    var points := Corners(ModeWidth(mode, rotation), ModeHeight(mode, rotation));
    if CornersWithinLimit(mode, rotation, t) {
      CornersInside(mode, rotation, t);
    }
    var box := ModeBox(mode, rotation, t);
    BoxWithinLimit(mode, rotation, t);
    InsideIsWithinLimit(Image(t, points[0]), box);
    InsideIsWithinLimit(Image(t, points[1]), box);
    InsideIsWithinLimit(Image(t, points[2]), box);
    InsideIsWithinLimit(Image(t, points[3]), box);
  }

  lemma InsideIsWithinLimit(p: Point, box: Box)
    requires SubBox(box, Box(-32767, -32767, 32767, 32767))
    ensures Inside(p, box) ==> WithinLimit(p)
  {
  }

  lemma BoxWithinLimit(mode: Mode, rotation: Rotation, t: Matrix)
    requires Moderate(mode)
    ensures SubBox(ModeBox(mode, rotation, t), Box(-32767, -32767, 32767, 32767))
  {
    var points := Corners(ModeWidth(mode, rotation), ModeHeight(mode, rotation));
    var limit := Box(-32767, -32767, 32767, 32767);
    var images := Transformed(t, points);
    BoundsOfIsBounds(images);
    assert AllInside(images, limit) by {
      forall i | 0 <= i < |images| ensures Inside(images[i], limit) {
        assert Inside(points[i], limit);
      }
    }
  }

  // ---- What a turn does to the picture ----

  /** Every point of the upright picture of a mode. */
  predicate InPicture(p: Point, mode: Mode) {
    0.0 <= p.x <= mode.width as real && 0.0 <= p.y <= mode.height as real
  }

  /** A quarter turn counterclockwise of a picture of the given width. */
  function Quarter(p: Point, width: nat): Point {
    Point(p.y, width as real - p.x)
  }

  /** Where a point of the picture goes; without a direction there is nothing to see. */
  function Turned(p: Point, mode: Mode, turn: Turn): Point {
    match turn
    case Rotate0 => p
    case Rotate90 => Quarter(p, mode.width)
    case Rotate180 => Quarter(Quarter(p, mode.width), mode.height)
    case Rotate270 => Quarter(Quarter(Quarter(p, mode.width), mode.height), mode.width)
    case NoTurn => Point(0.0, 0.0)
  }

  /** Where a turned point comes from: the rest of the full circle. */
  function TurnedBack(q: Point, mode: Mode, turn: Turn): Point {
    match turn
    case Rotate0 => q
    case Rotate90 => Quarter(Quarter(Quarter(q, mode.height), mode.width), mode.height)
    case Rotate180 => Quarter(Quarter(q, mode.width), mode.height)
    case Rotate270 => Quarter(q, mode.height)
    case NoTurn => Point(0.0, 0.0)
  }

  ghost predicate IsTurnedPoint(q: Point, mode: Mode, turn: Turn) {
    exists p :: InPicture(p, mode) && Turned(p, mode, turn) == q
  }

  /** What a rotated mode scans out are exactly the turned points of its picture. */
  lemma TurnedPicture(q: Point, mode: Mode, rotation: Rotation)
    ensures InMode(q, mode, rotation) <==> IsTurnedPoint(q, mode, rotation.turn)
  {
    var p := TurnedBack(q, mode, rotation.turn);
    if InMode(q, mode, rotation) {
      assert InPicture(p, mode) && Turned(p, mode, rotation.turn) == q;
    }
  }

  /** `box` is the least integer box around the image of the mode. */
  ghost predicate IsBoxOfImage(box: Box, mode: Mode, rotation: Rotation, t: Matrix) {
    && HoldsImage(box, mode, rotation, t)
    && forall other: Box :: HoldsImage(other, mode, rotation, t) ==> SubBox(box, other)
  }

  ghost predicate HoldsImage(box: Box, mode: Mode, rotation: Rotation, t: Matrix) {
    forall p | InMode(p, mode, rotation) :: Inside(Image(t, p), box)
  }

  lemma ModeBoxIsLeast(mode: Mode, rotation: Rotation, t: Matrix)
    requires CornersWithinLimit(mode, rotation, t)
    ensures IsBoxOfImage(ModeBox(mode, rotation, t), mode, rotation, t)
  {
    CornersInside(mode, rotation, t);
    CoverageCondition(mode, rotation, t);
    var corners := Corners(ModeWidth(mode, rotation), ModeHeight(mode, rotation));
    var images := Transformed(t, corners);
    BoundsOfIsBounds(images);
    forall other: Box | HoldsImage(other, mode, rotation, t) ensures SubBox(ModeBox(mode, rotation, t), other) {
      forall i | 0 <= i < |images| ensures Inside(images[i], other) {
        assert InMode(corners[i], mode, rotation);
      }
      assert AllInside(images, other);
    }
  }

  /** The transform that turns the picture. */
  function TurnMatrix(mode: Mode, turn: Turn): Matrix
    requires !turn.NoTurn?
  {
    var w, h := mode.width as real, mode.height as real;
    match turn
    case Rotate0 => Affine(1.0, 0.0, 0.0, 0.0, 1.0, 0.0)
    case Rotate90 => Affine(0.0, 1.0, 0.0, -1.0, 0.0, w)
    case Rotate180 => Affine(-1.0, 0.0, w, 0.0, -1.0, h)
    case Rotate270 => Affine(0.0, -1.0, h, 1.0, 0.0, 0.0)
  }

  lemma TurnMatrixTurns(mode: Mode, turn: Turn, p: Point)
    requires !turn.NoTurn?
    ensures Image(TurnMatrix(mode, turn), p) == Turned(p, mode, turn)
    ensures Image(TurnMatrix(mode, Rotate0), p) == p
  {
  }

  /** A rotated mode covers the box that the upright one covers with a transform that turns it. */
  lemma TurnIsTransform(mode: Mode, turn: Turn)
    requires Moderate(mode) && !turn.NoTurn?
    ensures ModeBox(mode, Rotation(turn, false, false), IDENTITY.matrix)
            == ModeBox(mode, UNROTATED, TurnMatrix(mode, turn))
  {
    var rotation, m := Rotation(turn, false, false), TurnMatrix(mode, turn);
    ModeBoxIsLeast(mode, rotation, IDENTITY.matrix);
    ModeBoxIsLeast(mode, UNROTATED, m);
    var turned, upright := ModeBox(mode, rotation, IDENTITY.matrix), ModeBox(mode, UNROTATED, m);
    forall p | InMode(p, mode, UNROTATED) ensures Inside(Image(m, p), turned) {
      var q := Turned(p, mode, turn);
      TurnMatrixTurns(mode, turn, p);
      TurnedPicture(p, mode, UNROTATED);
      assert IsTurnedPoint(q, mode, turn);
      TurnedPicture(q, mode, rotation);
      assert Inside(Image(IDENTITY.matrix, q), turned);
    }
    forall q | InMode(q, mode, rotation) ensures Inside(Image(IDENTITY.matrix, q), upright) {
      TurnedPicture(q, mode, rotation);
      var p :| InPicture(p, mode) && Turned(p, mode, turn) == q;
      TurnMatrixTurns(mode, turn, p);
      assert InMode(p, mode, UNROTATED) by { TurnedPicture(p, mode, UNROTATED); assert Turned(p, mode, Rotate0) == p; }
      assert Inside(Image(m, p), upright);
    }
    assert HoldsImage(turned, mode, UNROTATED, m) && HoldsImage(upright, mode, rotation, IDENTITY.matrix);
  }
}
