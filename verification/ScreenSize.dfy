/** The framebuffer that covers every lit output: `set_screen_size`. */
module ScreenSize {
  import opened Basics
  import opened Geometry
  import opened Displays

  datatype Limits = Limits(minWidth: int, minHeight: int, maxWidth: int, maxHeight: int)

  function Cover(o: Output): Box
    requires Lit(o)
  {
    ModeBox(o.mode.value, o.rotation, o.transform.matrix)
  }

  /** The panning area that counts for an output: the requested one, or the one its CRTC has now. */
  function PanningOf(o: Output, crtcs: seq<Crtc>): Option<Panning> {
    if ChangePanning in o.changes then Some(o.panning)
    else if o.crtc.Some? && o.crtc.value < |crtcs| then crtcs[o.crtc.value].panning
    else None
  }

  ghost predicate OutputFits(o: Output, width: int, height: int) {
    Lit(o) ==> o.x + Cover(o).x2 <= width && o.y + Cover(o).y2 <= height
  }

  /** The panning area that counts for a lit output fits: the one that it requests, or else the one
      that its CRTC has. */
  ghost predicate PanningFits(o: Output, crtcs: seq<Crtc>, width: int, height: int) {
    Lit(o) ==>
      && (ChangePanning in o.changes ==> AreaFits(o.panning, width, height))
      && (ChangePanning !in o.changes ==>
            forall c | 0 <= c < |crtcs| && o.crtc == Some(c) && crtcs[c].panning.Some? ::
              AreaFits(crtcs[c].panning.value, width, height))
  }

  predicate AreaFits(pan: Panning, width: int, height: int) {
    pan.left + pan.width <= width && pan.top + pan.height <= height
  }

  ghost predicate Covers(outs: seq<Output>, crtcs: seq<Crtc>, width: int, height: int) {
    forall i | 0 <= i < |outs| :: OutputFits(outs[i], width, height) && PanningFits(outs[i], crtcs, width, height)
  }

  /** (`width`, `height`) is the least size at or above a given one that covers everything. */
  ghost predicate LeastCover(outs: seq<Output>, crtcs: seq<Crtc>, atLeast: (int, int), width: int, height: int) {
    && Covers(outs, crtcs, width, height) && atLeast.0 <= width && atLeast.1 <= height
    && forall w, h :: Covers(outs, crtcs, w, h) && atLeast.0 <= w && atLeast.1 <= h ==> width <= w && height <= h
  }

  ghost predicate LargeEnough(o: Output, crtcs: seq<Crtc>, atLeast: (int, int), width: int, height: int) {
    OutputFits(o, width, height) && PanningFits(o, crtcs, width, height) && atLeast.0 <= width && atLeast.1 <= height
  }

  /** Some permitted size at or above a given one covers everything. */
  ghost predicate Permitted(outs: seq<Output>, crtcs: seq<Crtc>, atLeast: (int, int), limits: Limits) {
    exists w, h :: Covers(outs, crtcs, w, h) && atLeast.0 <= w <= limits.maxWidth && atLeast.1 <= h <= limits.maxHeight
  }

  /** The size that the user chose is permitted, or else some size that covers everything is. */
  ghost predicate SizeAllowed(outs: seq<Output>, crtcs: seq<Crtc>, fb: (int, int), limits: Limits) {
    if fb.0 != 0 && fb.1 != 0 then
      limits.minWidth <= fb.0 <= limits.maxWidth && limits.minHeight <= fb.1 <= limits.maxHeight
    else
      Permitted(outs, crtcs, fb, limits)
  }

  /** Grows the framebuffer over one output. */
  method GrowOver(d: Display, o: Output)
    requires Lit(o)
    modifies d`fbWidth, d`fbHeight
    ensures OutputFits(o, d.fbWidth, d.fbHeight) && PanningFits(o, d.crtcs[..], d.fbWidth, d.fbHeight)
    ensures old(d.fbWidth) <= d.fbWidth && old(d.fbHeight) <= d.fbHeight
    ensures forall w, h :: LargeEnough(o, d.crtcs[..], (old(d.fbWidth), old(d.fbHeight)), w, h) ==>
              d.fbWidth <= w && d.fbHeight <= h
  {
    var bounds := ModeGeometry(o.mode.value, o.rotation, o.transform.matrix);
    var x := o.x + bounds.x1;
    var y := o.y + bounds.y1;
    var w := bounds.x2 - bounds.x1;
    var h := bounds.y2 - bounds.y1;
    if x + w > d.fbWidth {
      d.fbWidth := x + w;
    }
    if y + h > d.fbHeight {
      d.fbHeight := y + h;
    }
    var pan := PanningOf(o, d.crtcs[..]);
    if pan.Some? && pan.value.left + pan.value.width > d.fbWidth {
      d.fbWidth := pan.value.left + pan.value.width;
    }
    if pan.Some? && pan.value.top + pan.value.height > d.fbHeight {
      d.fbHeight := pan.value.top + pan.value.height;
    }
  }

  /** Returns false where the program stops with an error. */
  method SetScreenSize(d: Display, limits: Limits) returns (ok: bool)
    modifies d`fbWidth, d`fbHeight
    ensures old(d.fbWidth != 0 && d.fbHeight != 0) ==>
              (&& d.fbWidth == old(d.fbWidth) && d.fbHeight == old(d.fbHeight)
               && (ok <==> && limits.minWidth <= d.fbWidth <= limits.maxWidth
                           && limits.minHeight <= d.fbHeight <= limits.maxHeight))
    ensures old(d.fbWidth == 0 || d.fbHeight == 0) ==>
              (&& (ok <==> Permitted(d.outputs[..], d.crtcs[..], (old(d.fbWidth), old(d.fbHeight)), limits))
               && (ok ==> LeastCover(d.outputs[..], d.crtcs[..],
                                     (Max(old(d.fbWidth), limits.minWidth), Max(old(d.fbHeight), limits.minHeight)),
                                     d.fbWidth, d.fbHeight)))
    ensures ok && limits.minWidth <= limits.maxWidth && limits.minHeight <= limits.maxHeight ==>
              d.fbWidth <= limits.maxWidth && d.fbHeight <= limits.maxHeight
  {
    var fbSpecified := d.fbWidth != 0 && d.fbHeight != 0;
    ghost var outs, crtcs, from := d.outputs[..], d.crtcs[..], (d.fbWidth, d.fbHeight);
    var i := 0;
    while i < d.outputs.Length
      invariant 0 <= i <= |outs|
      invariant d.outputs[..] == outs && d.crtcs[..] == crtcs
      invariant fbSpecified ==> d.fbWidth == from.0 && d.fbHeight == from.1
      invariant !fbSpecified ==> LeastCover(outs[..i], crtcs, from, d.fbWidth, d.fbHeight)
    {
      var o := d.outputs[i];
      ghost var before := (d.fbWidth, d.fbHeight);
      // a framebuffer the user chose only draws a warning when it is too small
      if o.mode.Some? && !fbSpecified {
        GrowOver(d, o);
      }
      if !fbSpecified {
        LeastCoverGrows(outs, crtcs, from, before, i, (d.fbWidth, d.fbHeight));
      }
      i := i + 1;
    }
    assert outs[..i] == outs;
    ghost var least := (d.fbWidth, d.fbHeight);
    assert !fbSpecified ==> LeastCover(outs, crtcs, from, least.0, least.1);
    if d.fbWidth > limits.maxWidth || d.fbHeight > limits.maxHeight {
      return false;
    }
    if fbSpecified {
      if d.fbWidth < limits.minWidth || d.fbHeight < limits.minHeight {
        return false;
      }
    } else {
      assert Covers(outs, crtcs, least.0, least.1);
      if d.fbWidth < limits.minWidth {
        d.fbWidth := limits.minWidth;
      }
      if d.fbHeight < limits.minHeight {
        d.fbHeight := limits.minHeight;
      }
    }
    ok := true;
  }

  lemma LeastCoverGrows(outs: seq<Output>, crtcs: seq<Crtc>, from: (int, int), before: (int, int), i: nat,
                        after: (int, int))
    requires i < |outs| && LeastCover(outs[..i], crtcs, from, before.0, before.1)
    requires OutputFits(outs[i], after.0, after.1) && PanningFits(outs[i], crtcs, after.0, after.1)
    requires before.0 <= after.0 && before.1 <= after.1
    requires forall w, h :: LargeEnough(outs[i], crtcs, before, w, h) ==> after.0 <= w && after.1 <= h
    ensures LeastCover(outs[..i + 1], crtcs, from, after.0, after.1)
  {
    var front, next := outs[..i], outs[..i + 1];
    assert forall k | 0 <= k < i :: front[k] == next[k];
    forall k | 0 <= k < |next|
      ensures OutputFits(next[k], after.0, after.1) && PanningFits(next[k], crtcs, after.0, after.1)
    {
      if k < i {
        assert OutputFits(front[k], before.0, before.1) && PanningFits(front[k], crtcs, before.0, before.1);
      }
    }
    forall w, h | Covers(next, crtcs, w, h) && from.0 <= w && from.1 <= h ensures after.0 <= w && after.1 <= h {
      assert Covers(front, crtcs, w, h);
      assert LargeEnough(next[i], crtcs, before, w, h);
    }
  }

  /** Every point that the output scans out is on the screen. */
  ghost predicate ImageOnScreen(o: Output, width: int, height: int)
    requires Lit(o)
  {
    forall p | InMode(p, o.mode.value, o.rotation) :: OnScreen(o, Image(o.transform.matrix, p), width, height)
  }

  predicate OnScreen(o: Output, q: Point, width: int, height: int) {
    && 0.0 <= o.x as real + q.x <= width as real
    && 0.0 <= o.y as real + q.y <= height as real
  }

  /** The box of an output starts on the screen. */
  predicate StartsOnScreen(o: Output)
    requires Lit(o)
  {
    o.x + Cover(o).x1 >= 0 && o.y + Cover(o).y1 >= 0
  }

  /** Every point that an output scans out is on the screen exactly if the integer test
      on its right and lower edge holds and its box starts neither left of nor above
      the screen; the program tests only the former. */
  lemma OnScreenMeans(o: Output, width: int, height: int)
    requires Lit(o) && CornersWithinLimit(o.mode.value, o.rotation, o.transform.matrix)
    ensures ImageOnScreen(o, width, height) <==> OutputFits(o, width, height) && StartsOnScreen(o)
  {
    var mode, rotation, t := o.mode.value, o.rotation, o.transform.matrix;
    CornersInside(mode, rotation, t);
    if OutputFits(o, width, height) && StartsOnScreen(o) {
      forall p | InMode(p, mode, rotation) ensures OnScreen(o, Image(t, p), width, height) {
        ModeBoxCoversImages(mode, rotation, t, p);
      }
    }
    if ImageOnScreen(o, width, height) {
      var screen := Box(-o.x, -o.y, width - o.x, height - o.y);
      var corners := Corners(ModeWidth(mode, rotation), ModeHeight(mode, rotation));
      var images := Transformed(t, corners);
      BoundsOfIsBounds(images);
      assert AllInside(images, screen) by {
        forall i | 0 <= i < |images| ensures Inside(images[i], screen) {
          assert InMode(corners[i], mode, rotation);
        }
      }
      assert SubBox(Cover(o), screen);
    }
  }

  /** Without a transform the box starts where the output does. So in a layout with its
      corner at the origin the test on the right and lower edge is all that is needed. */
  lemma UntransformedOnScreen(o: Output, width: int, height: int)
    requires Lit(o) && o.transform.matrix == IDENTITY.matrix && Moderate(o.mode.value)
    ensures ImageOnScreen(o, width, height) <==> OutputFits(o, width, height) && o.x >= 0 && o.y >= 0
  {
    var mode, rotation, t := o.mode.value, o.rotation, o.transform.matrix;
    UntransformedBox(mode, rotation);
    OnScreenMeans(o, width, height);
  }

  lemma UntransformedBox(mode: Mode, rotation: Rotation)
    requires Moderate(mode)
    ensures CornersWithinLimit(mode, rotation, IDENTITY.matrix)
    ensures ModeBox(mode, rotation, IDENTITY.matrix) == Box(0, 0, ModeWidth(mode, rotation), ModeHeight(mode, rotation))
  {
    var t := IDENTITY.matrix;
    var corners := Corners(ModeWidth(mode, rotation), ModeHeight(mode, rotation));
    var images := Transformed(t, corners);
    assert forall i | 0 <= i < 4 :: images[i] == corners[i];
    BoundsOfIsBounds(images);
    var found, box := ModeBox(mode, rotation, t), Box(0, 0, ModeWidth(mode, rotation), ModeHeight(mode, rotation));
    assert AllInside(images, box) && SubBox(found, box);
    assert Inside(images[0], found) && Inside(images[2], found);
  }

  /** Without a transform the test is about every point of the picture, turned and put in its place. */
  lemma TurnedPictureFits(o: Output, width: int, height: int)
    requires Lit(o) && o.transform.matrix == IDENTITY.matrix && Moderate(o.mode.value)
    ensures OutputFits(o, width, height)
            <==> forall p | InPicture(p, o.mode.value) ::
                   EndsOnScreen(o, Turned(p, o.mode.value, o.rotation.turn), width, height)
  {
    var mode, rotation := o.mode.value, o.rotation;
    UntransformedBox(mode, rotation);
    var w, h := ModeWidth(mode, rotation), ModeHeight(mode, rotation);
    if OutputFits(o, width, height) {
      forall p | InPicture(p, mode) ensures EndsOnScreen(o, Turned(p, mode, rotation.turn), width, height) {
        assert IsTurnedPoint(Turned(p, mode, rotation.turn), mode, rotation.turn);
        TurnedPicture(Turned(p, mode, rotation.turn), mode, rotation);
      }
    }
    var corner := Point(w as real, h as real);
    TurnedPicture(corner, mode, rotation);
    var p :| InPicture(p, mode) && Turned(p, mode, rotation.turn) == corner;
  }

  predicate EndsOnScreen(o: Output, q: Point, width: int, height: int) {
    o.x as real + q.x <= width as real && o.y as real + q.y <= height as real
  }

  /** With a transform that moves the picture left, a framebuffer that passes the test
      leaves part of an output at the origin off the screen. */
  lemma LeftOfTheScreen(o: Output)
    requires o.mode == Some(Mode(1, 800, 600)) && o.rotation == UNROTATED && o.x == 0 && o.y == 0
    requires o.transform.matrix == Affine(1.0, 0.0, -100.0, 0.0, 1.0, 0.0)
    ensures CornersWithinLimit(o.mode.value, o.rotation, o.transform.matrix)
    ensures OutputFits(o, 700, 600) && !ImageOnScreen(o, 700, 600)
  {
    var t, points := o.transform.matrix, Corners(800, 600);
    assert Image(t, points[0]) == Point(-100.0, 0.0) && Image(t, points[1]) == Point(700.0, 0.0);
    assert Image(t, points[2]) == Point(700.0, 600.0) && Image(t, points[3]) == Point(-100.0, 600.0);
    var images := Transformed(t, points);
    BoundsOfIsBounds(images);
    assert AllInside(images, Box(-100, 0, 700, 600)) && Inside(images[0], Cover(o));
    assert SubBox(Cover(o), Box(-100, 0, 700, 600));
    OnScreenMeans(o, 700, 600);
  }

  /** A corner that leaves the coordinate range is measured untransformed, so the
      chosen size can be too small: doubling a mode of width 20000. */
  lemma UntransformedCorner(o: Output)
    requires o.mode == Some(Mode(1, 20000, 1)) && o.rotation == UNROTATED && o.x == 0 && o.y == 0
    requires o.transform.matrix == Affine(2.0, 0.0, 0.0, 0.0, 1.0, 0.0)
    ensures OutputFits(o, 20000, 1) && StartsOnScreen(o) && !ImageOnScreen(o, 20000, 1)
  {
    var corner := Point(20000.0, 1.0);
    assert InMode(corner, o.mode.value, o.rotation) && !OnScreen(o, Image(o.transform.matrix, corner), 20000, 1);
    var images := Transformed(o.transform.matrix, Corners(20000, 1));
    assert images == [Point(0.0, 0.0), Point(20000.0, 0.0), Point(20000.0, 1.0), Point(0.0, 1.0)];
    var box := Box(0, 0, 20000, 1);
    BoundsOfIsBounds(images);
    assert AllInside(images, box);
    assert SubBox(Cover(o), box);
  }
}
