/** What a finished placement means: every relation holds, the corner is at the
    origin, and the order of the output list does not matter. */
module Layouts {
  import opened Basics
  import opened Geometry
  import opened Displays
  import opened Positions
  import Chains

  /** `b` keeps everything of `a` but its place and its marks. */
  ghost predicate SameButPlace(a: Output, b: Output) {
    b == a.(x := b.x, y := b.y, changes := b.changes)
  }

  lemma {:induction false} LeastIsLeast(outs: seq<Output>)
    ensures LeastX(outs) <= 32768 && LeastY(outs) <= 32768
    ensures forall o | o in outs && Lit(o) :: LeastX(outs) <= o.x && LeastY(outs) <= o.y
    ensures LeastX(outs) == 32768 || exists o :: o in outs && Lit(o) && o.x == LeastX(outs)
    ensures LeastY(outs) == 32768 || exists o :: o in outs && Lit(o) && o.y == LeastY(outs)
  {
    if outs != [] {
      var last := |outs| - 1;
      LeastIsLeast(outs[..last]);
      assert outs == outs[..last] + [outs[last]];
    }
  }

  /** One output of a solved list, before the shift. */
  lemma SolvedAt(a: seq<Output>, p: seq<Output>, i: nat)
    requires OnlyPlaced(a, p) && Solved(p) && i < |a|
    ensures SameButPlace(a[i], p[i])
    ensures !Related(a[i]) ==> p[i] == a[i]
    ensures Related(a[i]) ==>
              (var t := FindOutput(a, a[i].relativeTo);
               && t.Some?
               && (p[i].x, p[i].y) == if Lit(a[t.value])
                                      then Beside(p[i], p[i].mode.value, p[t.value], p[t.value].mode.value)
                                      else (0, 0))
  {
    assert PlacedFrom(a[i], p[i]);
    if Related(a[i]) {
      assert i !in UnplacedSet(p);
      assert VisitOf(p, i) == Place((p[i].x, p[i].y));
      OnlyPlacedKeepsNames(a, p, a[i].relativeTo, 0);
      var t := FindOutput(p, p[i].relativeTo).value;
      assert PlacedFrom(a[t], p[t]);
    }
  }

  /** Moving both outputs by one vector keeps a relation between them. */
  lemma MovedTogether(o: Output, r: Output, dx: int, dy: int)
    requires Lit(o) && Lit(r)
    requires (o.x, o.y) == Beside(o, o.mode.value, r, r.mode.value)
    ensures var o', r' := Moved(o, dx, dy), Moved(r, dx, dy);
            && Lit(o') && Lit(r') && (o'.x, o'.y) == Beside(o', o'.mode.value, r', r'.mode.value)
  {
  }

  ghost predicate RelationHolds(o: Output, r: Output) {
    Lit(o) && Lit(r) && (o.x, o.y) == Beside(o, o.mode.value, r, r.mode.value)
  }

  // ---- What a relation means on the screen ----

  /** A point of the screen that a lit output covers, transforms aside. */
  ghost predicate IsCovered(o: Output, q: Point) {
    Lit(o) && InMode(Point(q.x - o.x as real, q.y - o.y as real), o.mode.value, o.rotation)
  }

  ghost predicate LeftEdge(o: Output, x: real) {
    && (exists q {:trigger IsCovered(o, q)} :: IsCovered(o, q) && q.x == x)
    && forall q {:trigger IsCovered(o, q)} | IsCovered(o, q) :: x <= q.x
  }

  ghost predicate RightEdge(o: Output, x: real) {
    && (exists q {:trigger IsCovered(o, q)} :: IsCovered(o, q) && q.x == x)
    && forall q {:trigger IsCovered(o, q)} | IsCovered(o, q) :: q.x <= x
  }

  ghost predicate UpperEdge(o: Output, y: real) {
    && (exists q {:trigger IsCovered(o, q)} :: IsCovered(o, q) && q.y == y)
    && forall q {:trigger IsCovered(o, q)} | IsCovered(o, q) :: y <= q.y
  }

  ghost predicate LowerEdge(o: Output, y: real) {
    && (exists q {:trigger IsCovered(o, q)} :: IsCovered(o, q) && q.y == y)
    && forall q {:trigger IsCovered(o, q)} | IsCovered(o, q) :: q.y <= y
  }

  ghost predicate SameLeftEdge(o: Output, r: Output) {
    exists x :: LeftEdge(o, x) && LeftEdge(r, x)
  }

  ghost predicate SameUpperEdge(o: Output, r: Output) {
    exists y :: UpperEdge(o, y) && UpperEdge(r, y)
  }

  /** The right edge of `o` is the left edge of `r`. */
  ghost predicate EndsWhereBegins(o: Output, r: Output) {
    exists x :: RightEdge(o, x) && LeftEdge(r, x)
  }

  /** The lower edge of `o` is the upper edge of `r`. */
  ghost predicate EndsOnTopOf(o: Output, r: Output) {
    exists y :: LowerEdge(o, y) && UpperEdge(r, y)
  }

  /** `o` stands as its relation says: next to `r`, where the two touch along one line, and
      level with it; or on the same upper left corner. */
  ghost predicate Stands(o: Output, r: Output) {
    match o.relation
    case LeftOf => EndsWhereBegins(o, r) && SameUpperEdge(o, r)
    case RightOf => EndsWhereBegins(r, o) && SameUpperEdge(o, r)
    case Above => EndsOnTopOf(o, r) && SameLeftEdge(o, r)
    case Below => EndsOnTopOf(r, o) && SameLeftEdge(o, r)
    case SameAs => SameLeftEdge(o, r) && SameUpperEdge(o, r)
  }

  /** The edges of an output in numbers. */
  lemma EdgesOf(o: Output)
    requires Lit(o)
    ensures forall x :: LeftEdge(o, x) <==> x == o.x as real
    ensures forall y :: UpperEdge(o, y) <==> y == o.y as real
    ensures forall x :: RightEdge(o, x) <==> x == (o.x + ModeWidth(o.mode.value, o.rotation)) as real
    ensures forall y :: LowerEdge(o, y) <==> y == (o.y + ModeHeight(o.mode.value, o.rotation)) as real
  {
    var first := Point(o.x as real, o.y as real);
    var last := Point((o.x + ModeWidth(o.mode.value, o.rotation)) as real,
                      (o.y + ModeHeight(o.mode.value, o.rotation)) as real);
    assert IsCovered(o, first) && IsCovered(o, last);
  }

  lemma SameLeftEdgeMeans(o: Output, r: Output)
    requires Lit(o) && Lit(r)
    ensures SameLeftEdge(o, r) <==> o.x == r.x
  {
    EdgesOf(o);
    EdgesOf(r);
    assert LeftEdge(r, r.x as real);
  }

  lemma SameUpperEdgeMeans(o: Output, r: Output)
    requires Lit(o) && Lit(r)
    ensures SameUpperEdge(o, r) <==> o.y == r.y
  {
    EdgesOf(o);
    EdgesOf(r);
    assert UpperEdge(r, r.y as real);
  }

  lemma EndsWhereBeginsMeans(o: Output, r: Output)
    requires Lit(o) && Lit(r)
    ensures EndsWhereBegins(o, r) <==> o.x + ModeWidth(o.mode.value, o.rotation) == r.x
  {
    EdgesOf(o);
    EdgesOf(r);
    assert LeftEdge(r, r.x as real);
  }

  lemma EndsOnTopOfMeans(o: Output, r: Output)
    requires Lit(o) && Lit(r)
    ensures EndsOnTopOf(o, r) <==> o.y + ModeHeight(o.mode.value, o.rotation) == r.y
  {
    EdgesOf(o);
    EdgesOf(r);
    assert UpperEdge(r, r.y as real);
  }

  /** A relation holds exactly if the outputs stand so. */
  lemma RelationMeans(o: Output, r: Output)
    requires Lit(o) && Lit(r)
    ensures RelationHolds(o, r) <==> Stands(o, r)
  {
    match o.relation {
      case LeftOf =>
        EndsWhereBeginsMeans(o, r);
        SameUpperEdgeMeans(o, r);
      case RightOf =>
        EndsWhereBeginsMeans(r, o);
        SameUpperEdgeMeans(o, r);
      case Above =>
        EndsOnTopOfMeans(o, r);
        SameLeftEdgeMeans(o, r);
      case Below =>
        EndsOnTopOfMeans(r, o);
        SameLeftEdgeMeans(o, r);
      case SameAs =>
        SameLeftEdgeMeans(o, r);
        SameUpperEdgeMeans(o, r);
    }
  }

  /** After placement every relation between lit outputs holds exactly, an
      output placed relative to a dark one sits where the old origin went, and
      every other lit output moved by the same vector. */
  lemma RelationsHold(a: seq<Output>, b: seq<Output>) returns (dx: int, dy: int)
    requires Solves(a, b)
    ensures |a| == |b| && forall i | 0 <= i < |a| :: SameButPlace(a[i], b[i])
    ensures forall i: nat, j: nat | Edge(a, i, j) :: RelationHolds(b[i], b[j]) && Stands(b[i], b[j])
    ensures forall i | 0 <= i < |a| && Lit(a[i]) && !Related(a[i]) :: b[i].x == a[i].x - dx && b[i].y == a[i].y - dy
    ensures forall i | 0 <= i < |a| && Related(a[i]) ::
              (var t := FindOutput(a, a[i].relativeTo);
               t.Some? && !Lit(a[t.value]) ==> b[i].x == -dx && b[i].y == -dy)
  {
    var p: seq<Output> :| OnlyPlaced(a, p) && Solved(p) && IsNormalised(p, b);
    dx, dy := LeastX(p), LeastY(p);
    forall i | 0 <= i < |a|
      ensures SameButPlace(a[i], b[i])
      ensures Lit(a[i]) && !Related(a[i]) ==> b[i].x == a[i].x - dx && b[i].y == a[i].y - dy
      ensures Related(a[i]) ==>
                (var t := FindOutput(a, a[i].relativeTo);
                 t.Some? && !Lit(a[t.value]) ==> b[i].x == -dx && b[i].y == -dy)
    {
      SolvedAt(a, p, i);
      assert b[i] == Moved(p[i], dx, dy);
    }
    forall i: nat, j: nat | Edge(a, i, j) ensures RelationHolds(b[i], b[j]) && Stands(b[i], b[j]) {
      SolvedAt(a, p, i);
      SolvedAt(a, p, j);
      MovedTogether(p[i], p[j], dx, dy);
      assert b[i] == Moved(p[i], dx, dy) && b[j] == Moved(p[j], dx, dy);
      RelationMeans(b[i], b[j]);
    }
  }

  ghost predicate TouchesOrigin(outs: seq<Output>) {
    && (forall o | o in outs && Lit(o) :: 0 <= o.x && 0 <= o.y)
    && (exists o :: o in outs && Lit(o) && o.x == 0)
    && (exists o :: o in outs && Lit(o) && o.y == 0)
  }

  /** The shift puts the upper left corner of the lit outputs at the origin
      exactly when no edge starts out beyond 32768. */
  lemma CornerAtOrigin(p: seq<Output>, b: seq<Output>)
    requires IsNormalised(p, b)
    ensures TouchesOrigin(b) <==>
            (exists o :: o in p && Lit(o) && o.x <= 32768) && (exists o :: o in p && Lit(o) && o.y <= 32768)
  {
    LeastIsLeast(p);
    if TouchesOrigin(b) {
      var o :| o in b && Lit(o) && o.x == 0;
      var r := Origin(p, b, o);
      assert r.x <= 32768;
      var o' :| o' in b && Lit(o') && o'.y == 0;
      var r' := Origin(p, b, o');
      assert r'.y <= 32768;
    }
    if (exists o :: o in p && Lit(o) && o.x <= 32768) && (exists o :: o in p && Lit(o) && o.y <= 32768) {
      var least :| least in p && Lit(least) && least.x == LeastX(p);
      MovedIn(p, b, least);
      var least' :| least' in p && Lit(least') && least'.y == LeastY(p);
      MovedIn(p, b, least');
      forall o | o in b && Lit(o) ensures 0 <= o.x && 0 <= o.y {
        var r := Origin(p, b, o);
      }
    }
  }

  lemma Origin(p: seq<Output>, b: seq<Output>, o: Output) returns (r: Output)
    requires IsNormalised(p, b) && o in b && Lit(o)
    ensures r in p && Lit(r) && o.x == r.x - LeastX(p) && o.y == r.y - LeastY(p)
  {
    var i :| 0 <= i < |b| && b[i] == o;
    r := p[i];
  }

  lemma MovedIn(p: seq<Output>, b: seq<Output>, r: Output)
    requires IsNormalised(p, b) && r in p && Lit(r)
    ensures exists o :: o in b && Lit(o) && o.x == r.x - LeastX(p) && o.y == r.y - LeastY(p)
  {
    var i :| 0 <= i < |p| && p[i] == r;
    assert b[i] in b;
  }

  // ---- The order of the list does not matter ----

  ghost predicate UniqueNames(outs: seq<Output>) {
    forall i, j | 0 <= i < j < |outs| :: outs[i].name != outs[j].name
  }

  /** The same outputs in any order. */
  ghost predicate Reordered(a: seq<Output>, c: seq<Output>) {
    UniqueNames(a) && UniqueNames(c) && forall o :: o in a <==> o in c
  }

  /** The place of `a[i]` in the other list. */
  ghost function Twin(a: seq<Output>, c: seq<Output>, i: nat): (k: nat)
    requires Reordered(a, c) && i < |a|
    ensures k < |c| && c[k] == a[i]
  {
    assert a[i] in c;
    var k :| 0 <= k < |c| && c[k] == a[i];
    k
  }

  lemma FindTwin(a: seq<Output>, c: seq<Output>, name: string)
    requires Reordered(a, c)
    ensures FindOutput(a, name).Some? <==> FindOutput(c, name).Some?
    ensures FindOutput(a, name).Some? ==>
              FindOutput(c, name).value == Twin(a, c, FindOutput(a, name).value)
  {
    var s, t := FindOutput(a, name), FindOutput(c, name);
    if s.Some? {
      assert c[Twin(a, c, s.value)].name == name;
    }
    if t.Some? {
      assert c[t.value] in a;
    }
  }

  ghost predicate Differs(p: seq<Output>, q: seq<Output>, i: nat, k: nat) {
    i < |p| && k < |q| && (p[i].x != q[k].x || p[i].y != q[k].y)
  }

  ghost function Differences(a: seq<Output>, p: seq<Output>, c: seq<Output>, q: seq<Output>): set<nat>
    requires Reordered(a, c) && |p| == |a| && |q| == |c|
  {
    set i: nat | i < |a| && Differs(p, q, i, Twin(a, c, i))
  }

  /** An output that two solutions place differently is related to another such output. */
  lemma DifferenceSpreads(a: seq<Output>, p: seq<Output>, c: seq<Output>, q: seq<Output>, i: nat) returns (t: nat)
    requires Reordered(a, c) && OnlyPlaced(a, p) && OnlyPlaced(c, q) && Solved(p) && Solved(q)
    requires i < |a| && Differs(p, q, i, Twin(a, c, i))
    ensures Edge(a, i, t) && t in Differences(a, p, c, q)
  {
    var k := Twin(a, c, i);
    SolvedAt(a, p, i);
    SolvedAt(c, q, k);
    FindTwin(a, c, a[i].relativeTo);
    t := FindOutput(a, a[i].relativeTo).value;
    SolvedAt(a, p, t);
    SolvedAt(c, q, Twin(a, c, t));
  }

  lemma DifferencesAreStuck(a: seq<Output>, p: seq<Output>, c: seq<Output>, q: seq<Output>)
    requires Reordered(a, c) && OnlyPlaced(a, p) && OnlyPlaced(c, q) && Solved(p) && Solved(q)
    ensures Chains.Stuck(Edges(a), Differences(a, p, c, q))
  {
    var s := Differences(a, p, c, q);
    forall i | i in s ensures Chains.HasNext(Edges(a), s, i) {
      var t := DifferenceSpreads(a, p, c, q, i);
      assert Edges(a)(i, t);
    }
  }

  ghost predicate HasSamePlace(q: seq<Output>, o: Output) {
    exists r :: r in q && Lit(r) && r.x == o.x && r.y == o.y
  }

  lemma SameLeast(p: seq<Output>, q: seq<Output>)
    requires forall o | o in p && Lit(o) :: HasSamePlace(q, o)
    ensures LeastX(q) <= LeastX(p) && LeastY(q) <= LeastY(p)
  {
    LeastIsLeast(p);
    LeastIsLeast(q);
  }

  lemma SamePlaces(a: seq<Output>, p: seq<Output>, c: seq<Output>, q: seq<Output>)
    requires Reordered(a, c) && OnlyPlaced(a, p) && OnlyPlaced(c, q) && Solved(p) && Solved(q) && !Cyclic(a)
    ensures forall i: nat | i < |a| ::
              p[i].x == q[Twin(a, c, i)].x && p[i].y == q[Twin(a, c, i)].y && p[i].mode == q[Twin(a, c, i)].mode
  {
    DifferencesAreStuck(a, p, c, q);
    Chains.StuckIffCyclic(Edges(a));
    assert Differences(a, p, c, q) == {};
    forall i: nat | i < |a|
      ensures p[i].x == q[Twin(a, c, i)].x && p[i].y == q[Twin(a, c, i)].y && p[i].mode == q[Twin(a, c, i)].mode
    {
      assert i !in Differences(a, p, c, q);
      SolvedAt(a, p, i);
      SolvedAt(c, q, Twin(a, c, i));
    }
  }

  lemma LeastMatches(a: seq<Output>, p: seq<Output>, c: seq<Output>, q: seq<Output>)
    requires Reordered(a, c) && |p| == |a| && |q| == |c|
    requires forall i: nat | i < |a| ::
               p[i].x == q[Twin(a, c, i)].x && p[i].y == q[Twin(a, c, i)].y && p[i].mode == q[Twin(a, c, i)].mode
    ensures LeastX(p) == LeastX(q) && LeastY(p) == LeastY(q)
  {
    forall o | o in p && Lit(o) ensures HasSamePlace(q, o) {
      var i: nat :| i < |p| && p[i] == o;
      assert q[Twin(a, c, i)] in q;
    }
    forall r | r in q && Lit(r) ensures HasSamePlace(p, r) {
      var k: nat :| k < |q| && q[k] == r;
      assert c[k] in a;
      var i: nat :| i < |a| && a[i] == c[k];
      assert Twin(a, c, i) == k;
      assert p[i] in p;
    }
    SameLeast(p, q);
    SameLeast(q, p);
  }

  /** Acyclic relations give every output one place, whatever the order of the list. */
  lemma OrderDoesNotMatter(a: seq<Output>, b: seq<Output>, c: seq<Output>, d: seq<Output>)
    requires Reordered(a, c) && Solves(a, b) && Solves(c, d) && !Cyclic(a)
    ensures |b| == |a| && |d| == |c|
    ensures forall i: nat | i < |a| :: b[i].x == d[Twin(a, c, i)].x && b[i].y == d[Twin(a, c, i)].y
  {
    var p: seq<Output> :| OnlyPlaced(a, p) && Solved(p) && IsNormalised(p, b);
    var q: seq<Output> :| OnlyPlaced(c, q) && Solved(q) && IsNormalised(q, d);
    SamePlaces(a, p, c, q);
    LeastMatches(a, p, c, q);
    ShiftMatches(a, p, b, c, q, d);
  }

  lemma ShiftMatches(a: seq<Output>, p: seq<Output>, b: seq<Output>, c: seq<Output>, q: seq<Output>, d: seq<Output>)
    requires Reordered(a, c) && |p| == |a| && |q| == |c| && IsNormalised(p, b) && IsNormalised(q, d)
    requires LeastX(p) == LeastX(q) && LeastY(p) == LeastY(q)
    requires forall i: nat | i < |a| ::
               p[i].x == q[Twin(a, c, i)].x && p[i].y == q[Twin(a, c, i)].y && p[i].mode == q[Twin(a, c, i)].mode
    ensures forall i: nat | i < |a| :: b[i].x == d[Twin(a, c, i)].x && b[i].y == d[Twin(a, c, i)].y
  {
    forall i: nat | i < |a| ensures b[i].x == d[Twin(a, c, i)].x && b[i].y == d[Twin(a, c, i)].y {
      var k := Twin(a, c, i);
      assert b[i] == Moved(p[i], LeastX(p), LeastY(p)) && d[k] == Moved(q[k], LeastX(p), LeastY(p));
    }
  }

  // ---- Fixed places together with relations ----

  ghost predicate SamePlace(a: Output, b: Output) {
    a.x == b.x && a.y == b.y
  }

  /** Moving the outputs of a relation together changes nothing about it, either way. */
  lemma MovingKeepsRelation(o: Output, r: Output, dx: int, dy: int)
    requires Lit(o) && Lit(r)
    ensures RelationHolds(Moved(o, dx, dy), Moved(r, dx, dy)) <==> RelationHolds(o, r)
  {
  }

  /** What the visit of output `i` in the middle of a pass does. */
  lemma VisitInPass(outs: seq<Output>, i: nat, j: nat)
    requires Unblocked(outs, |outs|) && Edge(outs, i, j)
    ensures var before, end := PassOver(outs, i), PassOver(outs, |outs|);
            && SameButPlace(outs[i], end[i]) && SameButPlace(outs[j], before[j])
            && (end[i].x, end[i].y) == Beside(outs[i], outs[i].mode.value, before[j], outs[j].mode.value)
  {
    var before := PassOver(outs, i);
    PassOnlyPlaces(outs, i);
    PassOnlyPlaces(outs, |outs|);
    OnlyPlacedKeepsNames(outs, before, outs[i].relativeTo, 0);
    assert before[i] == outs[i];
    assert PlacedFrom(outs[j], before[j]);
    assert VisitOf(before, i) == Place(Beside(outs[i], outs[i].mode.value, before[j], outs[j].mode.value));
    assert PassOver(outs, i + 1)[i] == PlaceOutput(outs[i], VisitOf(before, i).at);
  }

  /** `e` was put beside `t`; so it is beside `u` exactly if `u` is where `t` was. */
  lemma StillBeside(o: Output, e: Output, t: Output, u: Output)
    requires Lit(o) && Lit(t) && SameButPlace(o, e) && SameButPlace(t, u)
    requires (e.x, e.y) == Beside(o, o.mode.value, t, t.mode.value)
    ensures RelationHolds(e, u) <==> SamePlace(t, u)
  {
  }

  /** After a pass that blocks nobody a relation holds exactly if its target comes
      first in the list, or was not moved by its own visit. */
  lemma RelationSurvives(outs: seq<Output>, i: nat, j: nat)
    requires Unblocked(outs, |outs|) && Edge(outs, i, j)
    ensures var end := PassOver(outs, |outs|);
            RelationHolds(end[i], end[j]) <==> j < i || SamePlace(outs[j], end[j])
  {
    var before, end := PassOver(outs, i), PassOver(outs, |outs|);
    VisitInPass(outs, i, j);
    TargetInPass(outs, i, j);
    StillBeside(outs[i], end[i], before[j], end[j]);
  }

  /** Before output `i` is visited, an earlier output has its final place and a later one its first. */
  lemma TargetInPass(outs: seq<Output>, i: nat, j: nat)
    requires i < |outs| && j < |outs|
    ensures var before, end := PassOver(outs, i), PassOver(outs, |outs|);
            && SameButPlace(before[j], end[j]) && before[j] == if j < i then end[j] else outs[j]
  {
    PassOnlyPlaces(outs, i);
    PassOnlyPlaces(outs, |outs|);
    assert PlacedFrom(outs[j], PassOver(outs, |outs|)[j]);
  }

  /** The same of the finished layout, whatever outputs had fixed places. The `n`-th pass
      is the last before the one that blocks nobody. */
  lemma RelationInTheEnd(a: seq<Output>, b: seq<Output>, n: nat, i: nat, j: nat)
    requires FirstUnblocked(a, n) && Settles(a, b) && Edge(a, i, j)
    ensures |b| == |a|
    ensures RelationHolds(b[i], b[j]) <==> j < i || SamePlace(AfterPasses(a, n)[j], AfterPasses(a, n + 1)[j])
  {
    var m: nat :| FirstUnblocked(a, m) && IsNormalised(AfterPasses(a, m + 1), b);
    assert !(n < m) && !(m < n);
    var last, end := AfterPasses(a, n), AfterPasses(a, n + 1);
    PassesOnlyPlace(a, n);
    OnlyPlacedKeepsEdges(a, last);
    VisitInPass(last, i, j);
    PassOnlyPlaces(last, |last|);
    assert PlacedFrom(last[j], end[j]);
    RelationSurvives(last, i, j);
    MovingKeepsRelation(end[i], end[j], LeastX(end), LeastY(end));
    assert b[i] == Moved(end[i], LeastX(end), LeastY(end)) && b[j] == Moved(end[j], LeastX(end), LeastY(end));
  }

  /** `p` has a fixed place and a relation to `q`, and `o` one to `p`. If `o` is
      first in the list, its relation survives only if `p` was in its place already;
      if `p` is first, it always does. */
  lemma FixedPlaceIsOverridden(o: Output, p: Output, q: Output, b: seq<Output>)
    requires Unplaced(o) && o.relativeTo == p.name
    requires Related(p) && ChangePosition in p.changes && p.relativeTo == q.name
    requires Lit(q) && !Related(q)
    requires o.name != p.name && o.name != q.name && p.name != q.name
    ensures Verdict([o, p, q]).Done? && Verdict([p, o, q]).Done?
    ensures Settles([o, p, q], b) ==>
              |b| == 3 && (RelationHolds(b[0], b[1]) <==> (p.x, p.y) == Beside(p, p.mode.value, q, q.mode.value))
    ensures Settles([p, o, q], b) ==> |b| == 3 && RelationHolds(b[1], b[0])
  {
    OneRound(o, p, q);
    var first, second := [o, p, q], [p, o, q];
    FindIs(first, p.name, 1);
    FindIs(first, q.name, 2);
    FindIs(second, p.name, 0);
    assert Edge(first, 0, 1) && Edge(first, 1, 2) && Edge(second, 1, 0);
    if Settles(first, b) {
      RelationInTheEnd(first, b, 0, 0, 1);
      VisitInPass(first, 1, 2);
      PassOnlyPlaces(first, 1);
      assert AfterPasses(first, 1) == PassOver(first, 3) && PassOver(first, 1)[2] == q;
    }
    if Settles(second, b) {
      RelationInTheEnd(second, b, 0, 1, 0);
    }
  }

  lemma FindIs(outs: seq<Output>, name: string, i: nat)
    requires i < |outs| && outs[i].name == name && forall j | 0 <= j < i :: outs[j].name != name
    ensures FindOutput(outs, name) == Some(i)
  {
  }

  /** Nobody is blocked in either order. */
  lemma OneRound(o: Output, p: Output, q: Output)
    requires Unplaced(o) && o.relativeTo == p.name
    requires Related(p) && ChangePosition in p.changes && p.relativeTo == q.name
    requires Lit(q) && !Related(q)
    requires o.name != p.name && o.name != q.name && p.name != q.name
    ensures FirstUnblocked([o, p, q], 0) && FirstUnblocked([p, o, q], 0)
    ensures Verdict([o, p, q]).Done? && Verdict([p, o, q]).Done?
  {
    FindIs([o, p, q], p.name, 1);
    FindIs([o, p, q], q.name, 2);
    FindIs([p, o, q], p.name, 0);
    FindIs([p, o, q], q.name, 2);
    NeverBlocked([o, p, q]);
    NeverBlocked([p, o, q]);
  }

  /** If every relation leads to a placed or unrelated output, a pass blocks nobody. */
  lemma NeverBlocked(outs: seq<Output>)
    requires forall i | 0 <= i < |outs| :: !VisitOf(outs, i).Blocked? && !VisitOf(outs, i).Missing?
    ensures FirstUnblocked(outs, 0) && Verdict(outs).Done?
  {
    var s := ChooseWaiting(outs);
    if i :| i in s {
      StuckIsBlocked(outs, s, i);
    }
    forall k | 0 <= k < |outs|
      ensures !VisitOf(PassOver(outs, k), k).Blocked? && !VisitOf(PassOver(outs, k), k).Missing?
    {
      PassOnlyPlaces(outs, k);
      PlaceableStays(outs, PassOver(outs, k), k);
      assert PassOver(outs, k)[k] == outs[k];
    }
  }
}
