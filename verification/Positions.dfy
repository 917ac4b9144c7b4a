/** Relative placement of outputs: `set_positions`. */
module Positions {
  import opened Basics
  import opened Geometry
  import opened Displays
  import Chains

  predicate Related(o: Output) {
    ChangeRelation in o.changes && Lit(o)
  }

  predicate Unplaced(o: Output) {
    Related(o) && ChangePosition !in o.changes
  }

  /** The first output with the given name. */
  function FindOutput(outs: seq<Output>, name: string, from: nat := 0): (r: Option<nat>)
    requires from <= |outs|
    ensures r.Some? ==> from <= r.value < |outs| && outs[r.value].name == name
    ensures r.Some? ==> forall j | from <= j < r.value :: outs[j].name != name
    ensures r.None? ==> forall j | from <= j < |outs| :: outs[j].name != name
    decreases |outs| - from
  {
    if from == |outs| then None
    else if outs[from].name == name then Some(from)
    else FindOutput(outs, name, from + 1)
  }

  method FindOutputByName(outputs: array<Output>, name: string) returns (r: Option<nat>)
    ensures r == FindOutput(outputs[..], name)
  {
    var i := 0;
    while i < outputs.Length
      invariant 0 <= i <= outputs.Length
      invariant FindOutput(outputs[..], name) == FindOutput(outputs[..], name, i)
    {
      if outputs[i].name == name {
        return Some(i);
      }
      i := i + 1;
    }
    r := None;
  }

  /** Where `o` belongs when it is placed relative to `target`. */
  function Beside(o: Output, m: Mode, target: Output, n: Mode): (int, int) {
    match o.relation
    case LeftOf => (target.x - ModeWidth(m, o.rotation), target.y)
    case RightOf => (target.x + ModeWidth(n, target.rotation), target.y)
    case Above => (target.x, target.y - ModeHeight(m, o.rotation))
    case Below => (target.x, target.y + ModeHeight(n, target.rotation))
    case SameAs => (target.x, target.y)
  }

  /** What visiting output `i` does to it. */
  datatype Visit = Ignore | Missing | Blocked | Place(at: (int, int))

  function VisitOf(outs: seq<Output>, i: nat): Visit
    requires i < |outs|
  {
    if !Related(outs[i]) then Ignore
    else
      match FindOutput(outs, outs[i].relativeTo)
      case None => Missing
      case Some(t) =>
        if outs[t].mode.None? then Place((0, 0))
        else if ChangeRelation in outs[t].changes && ChangePosition !in outs[t].changes then Blocked
        else Place(Beside(outs[i], outs[i].mode.value, outs[t], outs[t].mode.value))
  }

  /** `b` differs from `a` only in the placement of related outputs. */
  ghost predicate OnlyPlaced(a: seq<Output>, b: seq<Output>) {
    && |a| == |b|
    && forall i | 0 <= i < |a| :: PlacedFrom(a[i], b[i])
  }

  ghost predicate PlacedFrom(a: Output, b: Output) {
    || b == a
    || (Related(a) && b == a.(x := b.x, y := b.y, changes := a.changes + {ChangePosition}))
  }

  lemma OnlyPlacedKeepsNames(a: seq<Output>, b: seq<Output>, name: string, from: nat)
    requires OnlyPlaced(a, b) && from <= |a|
    ensures FindOutput(a, name, from) == FindOutput(b, name, from)
    decreases |a| - from
  {
    if from < |a| {
      assert PlacedFrom(a[from], b[from]);
      OnlyPlacedKeepsNames(a, b, name, from + 1);
    }
  }

  /** Every related output that counts as placed sits exactly where its relation puts it now. */
  ghost predicate Consistent(outs: seq<Output>) {
    forall i | 0 <= i < |outs| :: Related(outs[i]) && ChangePosition in outs[i].changes ==>
      VisitOf(outs, i) == Place((outs[i].x, outs[i].y))
  }

  ghost predicate SomeMissing(outs: seq<Output>) {
    exists i :: 0 <= i < |outs| && VisitOf(outs, i).Missing?
  }

  ghost function UnplacedSet(outs: seq<Output>): set<nat> {
    set i | 0 <= i < |outs| && Unplaced(outs[i])
  }

  // ---- Chains of relations ----

  /** `i` and `j` are lit and `i` is placed relative to `j`. */
  ghost predicate Edge(outs: seq<Output>, i: nat, j: nat) {
    i < |outs| && Related(outs[i]) && FindOutput(outs, outs[i].relativeTo) == Some(j) && Lit(outs[j])
  }

  ghost function Edges(outs: seq<Output>): Chains.Relation {
    (i: nat, j: nat) => Edge(outs, i, j)
  }

  ghost predicate Cyclic(outs: seq<Output>) {
    Chains.Cyclic(Edges(outs))
  }

  /** `i` cannot be placed before `j` is: both are unplaced, and `i` is placed relative to `j`. */
  ghost function Waits(outs: seq<Output>): Chains.Relation {
    (i: nat, j: nat) => Edge(outs, i, j) && Unplaced(outs[i]) && Unplaced(outs[j])
  }

  /** Unplaced outputs wait for one another in a circle. */
  ghost predicate Deadlocked(outs: seq<Output>) {
    Chains.Cyclic(Waits(outs))
  }

  /** A set of unplaced outputs that all wait for members of the set. */
  ghost predicate Waiting(outs: seq<Output>, s: set<nat>) {
    Chains.Stuck(Edges(outs), s) && s <= UnplacedSet(outs)
  }

  lemma DeadlockedIfWaiting(outs: seq<Output>, s: set<nat>)
    requires Waiting(outs, s) && s != {}
    ensures Deadlocked(outs)
  {
    forall i | i in s ensures Chains.HasNext(Waits(outs), s, i) {
      assert Chains.HasNext(Edges(outs), s, i);
      var j :| j in s && Edges(outs)(i, j);
      assert i in UnplacedSet(outs) && j in UnplacedSet(outs) && Waits(outs)(i, j);
    }
    assert s != {} && Chains.Stuck(Waits(outs), s);
    Chains.StuckIffCyclic(Waits(outs));
  }

  /** Outputs that wait for one another, if there are any. */
  lemma ChooseWaiting(outs: seq<Output>) returns (s: set<nat>)
    ensures Waiting(outs, s) && (s != {} <==> Deadlocked(outs))
  {
    Chains.StuckIffCyclic(Waits(outs));
    s := {};
    if Deadlocked(outs) {
      s :| s != {} && Chains.Stuck(Waits(outs), s);
      forall i | i in s ensures Chains.HasNext(Edges(outs), s, i) && i in UnplacedSet(outs) {
        assert Chains.HasNext(Waits(outs), s, i);
        var j :| j in s && Waits(outs)(i, j);
        assert Edges(outs)(i, j);
      }
    }
  }

  /** Without fixed places among the related outputs, that is any cycle of relations. */
  lemma DeadlockedIffCyclic(outs: seq<Output>)
    requires NonePlaced(outs)
    ensures Deadlocked(outs) <==> Cyclic(outs)
  {
    Chains.StuckIffCyclic(Edges(outs));
    if s :| s != {} && Chains.Stuck(Edges(outs), s) {
      forall i | i in s ensures i in UnplacedSet(outs) {
        assert Chains.HasNext(Edges(outs), s, i);
      }
      DeadlockedIfWaiting(outs, s);
    }
    var s := ChooseWaiting(outs);
  }

  /** When every unplaced output is blocked, the unplaced outputs wait for one another. */
  lemma BlockedAreStuck(outs: seq<Output>)
    requires forall i | 0 <= i < |outs| && Unplaced(outs[i]) :: VisitOf(outs, i).Blocked?
    ensures Chains.Stuck(Edges(outs), UnplacedSet(outs))
  {
    forall i | i in UnplacedSet(outs) ensures Chains.HasNext(Edges(outs), UnplacedSet(outs), i) {
      var j := FindOutput(outs, outs[i].relativeTo).value;
      assert j in UnplacedSet(outs) && Edges(outs)(i, j);
    }
  }

  lemma OnlyPlacedKeepsEdges(a: seq<Output>, b: seq<Output>)
    requires OnlyPlaced(a, b)
    ensures forall i, j :: Edge(a, i, j) <==> Edge(b, i, j)
  {
    forall i: nat, j: nat ensures Edge(a, i, j) <==> Edge(b, i, j) {
      if i < |a| {
        assert PlacedFrom(a[i], b[i]);
        OnlyPlacedKeepsNames(a, b, a[i].relativeTo, 0);
        var t := FindOutput(a, a[i].relativeTo);
        if t.Some? { assert PlacedFrom(a[t.value], b[t.value]); }
      }
    }
  }

  // ---- One pass over the list ----

  function PlaceOutput(o: Output, at: (int, int)): Output {
    o.(x := at.0, y := at.1, changes := o.changes + {ChangePosition})
  }

  lemma PlacingOne(outs: seq<Output>, i: nat)
    requires i < |outs| && VisitOf(outs, i).Place?
    ensures var next := outs[i := PlaceOutput(outs[i], VisitOf(outs, i).at)];
            && OnlyPlaced(outs, next)
            && UnplacedSet(next) == UnplacedSet(outs) - {i}
            && (i !in UnplacedSet(outs) ==> next[i].changes == outs[i].changes)
  {
    var next := outs[i := PlaceOutput(outs[i], VisitOf(outs, i).at)];
    if i !in UnplacedSet(outs) {
      assert next[i].changes == outs[i].changes;
    }
  }

  lemma PlacingKeepsConsistent(outs: seq<Output>, i: nat)
    requires Consistent(outs) && i < |outs| && VisitOf(outs, i).Place?
    ensures Consistent(outs[i := PlaceOutput(outs[i], VisitOf(outs, i).at)])
  {
    var next := outs[i := PlaceOutput(outs[i], VisitOf(outs, i).at)];
    PlacingOne(outs, i);
    if i !in UnplacedSet(outs) {
      assert next[i] == outs[i];
      assert next == outs;
    } else {
      forall j | 0 <= j < |next| && Related(next[j]) && ChangePosition in next[j].changes
        ensures VisitOf(next, j) == Place((next[j].x, next[j].y))
      {
        OnlyPlacedKeepsNames(outs, next, outs[j].relativeTo, 0);
      }
    }
  }

  /** Whether an output is blocked depends on the marks alone. */
  lemma SameMarksSameBlocked(a: seq<Output>, b: seq<Output>, i: nat)
    requires OnlyPlaced(a, b) && i < |a| && forall k | 0 <= k < |a| :: a[k].changes == b[k].changes
    ensures VisitOf(a, i).Blocked? <==> VisitOf(b, i).Blocked?
  {
    assert PlacedFrom(a[i], b[i]);
    OnlyPlacedKeepsNames(a, b, a[i].relativeTo, 0);
    var t := FindOutput(a, a[i].relativeTo);
    if t.Some? { assert PlacedFrom(a[t.value], b[t.value]); }
  }

  /** Placing more outputs never blocks one that could be placed before. */
  lemma PlaceableStays(a: seq<Output>, b: seq<Output>, i: nat)
    requires OnlyPlaced(a, b) && i < |a|
    ensures VisitOf(a, i).Place? ==> VisitOf(b, i).Place?
    ensures VisitOf(a, i).Missing? <==> VisitOf(b, i).Missing?
  {
    assert PlacedFrom(a[i], b[i]);
    OnlyPlacedKeepsNames(a, b, a[i].relativeTo, 0);
    var t := FindOutput(a, a[i].relativeTo);
    if t.Some? { assert PlacedFrom(a[t.value], b[t.value]); }
  }

  lemma OnlyPlacedTransitive(a: seq<Output>, b: seq<Output>, c: seq<Output>)
    requires OnlyPlaced(a, b) && OnlyPlaced(b, c)
    ensures OnlyPlaced(a, c)
  {
    forall i | 0 <= i < |a| ensures PlacedFrom(a[i], c[i]) {
      assert PlacedFrom(a[i], b[i]) && PlacedFrom(b[i], c[i]);
    }
  }

  /** Outputs that wait for one another are never placed. */
  lemma StuckIsBlocked(outs: seq<Output>, stuck: set<nat>, i: nat)
    requires Chains.Stuck(Edges(outs), stuck) && stuck <= UnplacedSet(outs) && i in stuck
    ensures i < |outs| && VisitOf(outs, i).Blocked?
  {
    assert Chains.HasNext(Edges(outs), stuck, i);
    var j :| j in stuck && Edges(outs)(i, j);
    assert j in UnplacedSet(outs);
  }

  datatype PassEnd = Aborted | Finished(keepGoing: bool, anySet: bool)

  ghost predicate Placeable(outs: seq<Output>) {
    exists i :: 0 <= i < |outs| && VisitOf(outs, i).Place?
  }

  /** The list after visiting output `i`. */
  function Visited(outs: seq<Output>, i: nat): seq<Output>
    requires i < |outs|
  {
    var v := VisitOf(outs, i);
    if v.Place? then outs[i := PlaceOutput(outs[i], v.at)] else outs
  }

  /** The list after visiting the first `n` outputs in turn. */
  function PassOver(outs: seq<Output>, n: nat): (r: seq<Output>)
    requires n <= |outs|
    ensures |r| == |outs|
  {
    if n == 0 then outs else Visited(PassOver(outs, n - 1), n - 1)
  }

  /** No visit of the first `n` outputs is blocked, or misses its output. */
  ghost predicate Unblocked(outs: seq<Output>, n: nat)
    requires n <= |outs|
  {
    forall k | 0 <= k < n :: !VisitOf(PassOver(outs, k), k).Blocked? && !VisitOf(PassOver(outs, k), k).Missing?
  }

  method VisitOutput(outputs: array<Output>, i: nat) returns (v: Visit)
    requires i < outputs.Length
    modifies outputs
    ensures v == VisitOf(old(outputs[..]), i)
    ensures outputs[..] == Visited(old(outputs[..]), i)
  {
    var o := outputs[i];
    if ChangeRelation !in o.changes || o.mode.None? {
      return Ignore;
    }
    var relation := FindOutputByName(outputs, o.relativeTo);
    if relation.None? {
      return Missing;
    }
    var target := outputs[relation.value];
    if target.mode.None? {
      v := Place((0, 0));
    } else if ChangeRelation in target.changes && ChangePosition !in target.changes {
      return Blocked;
    } else {
      v := Place(Beside(o, o.mode.value, target, target.mode.value));
    }
    outputs[i] := PlaceOutput(o, v.at);
  }

  /** What is known after the first `i` outputs of a pass were visited. */
  ghost predicate PassState(start: seq<Output>, now: seq<Output>, i: nat, keepGoing: bool, anySet: bool) {
    && OnlyPlaced(start, now) && (Consistent(start) ==> Consistent(now))
    && i <= |now|
    && (forall j | i <= j < |now| :: now[j] == start[j])
    && (forall j | 0 <= j < i :: !VisitOf(start, j).Missing?)
    && (keepGoing ==> UnplacedSet(start) != {})
    && (!keepGoing ==> forall j | 0 <= j < i :: !Unplaced(now[j]))
    && (anySet ==> Placeable(start))
    && (anySet || now == start)
    && (forall j | 0 <= j < i && VisitOf(start, j).Place? :: anySet)
    && UnplacedSet(now) <= UnplacedSet(start)
    && (UnplacedSet(now) == UnplacedSet(start) ==> AllBlocked(now, i))
  }

  /** The pass so far is the specified one, and `keepGoing` tells whether somebody was blocked. */
  ghost predicate PassFollows(start: seq<Output>, now: seq<Output>, i: nat, keepGoing: bool) {
    i <= |start| && now == PassOver(start, i) && (keepGoing <==> !Unblocked(start, i))
  }

  ghost predicate AllBlocked(outs: seq<Output>, n: nat)
    requires n <= |outs|
  {
    forall j | 0 <= j < n && Unplaced(outs[j]) :: VisitOf(outs, j).Blocked?
  }

  lemma PassStep(start: seq<Output>, now: seq<Output>, i: nat, keepGoing: bool, anySet: bool)
    requires PassState(start, now, i, keepGoing, anySet)
    requires i < |now| && !VisitOf(now, i).Missing?
    ensures PassState(start, Visited(now, i), i + 1,
                      keepGoing || VisitOf(now, i).Blocked?, anySet || VisitOf(now, i).Place?)
  {
    var next := Visited(now, i);
    PlaceableStays(start, now, i);
    BlockedByUnplaced(now, i);
    if VisitOf(now, i).Place? {
      PlacingOne(now, i);
      OnlyPlacedTransitive(start, now, next);
      if Consistent(now) {
        PlacingKeepsConsistent(now, i);
      }
    }
    if UnplacedSet(next) == UnplacedSet(start) {
      StillBlocked(now, i);
    }
  }

  lemma FollowStep(start: seq<Output>, now: seq<Output>, i: nat, keepGoing: bool)
    requires PassFollows(start, now, i, keepGoing) && i < |now| && !VisitOf(now, i).Missing?
    ensures PassFollows(start, Visited(now, i), i + 1, keepGoing || VisitOf(now, i).Blocked?)
  {
  }

  /** A visit that places nothing new blocks and unblocks nobody. */
  lemma StillBlocked(now: seq<Output>, i: nat)
    requires i < |now| && !VisitOf(now, i).Missing? && AllBlocked(now, i)
    requires UnplacedSet(Visited(now, i)) == UnplacedSet(now)
    ensures AllBlocked(Visited(now, i), i + 1)
  {
    var next := Visited(now, i);
    if VisitOf(now, i).Place? {
      PlacingOne(now, i);
    }
    assert OnlyPlaced(now, next);
    forall j | 0 <= j < i + 1 && Unplaced(next[j]) ensures VisitOf(next, j).Blocked? {
      assert j in UnplacedSet(next);
      SameMarksSameBlocked(now, next, j);
    }
  }

  lemma BlockedByUnplaced(outs: seq<Output>, i: nat)
    requires i < |outs|
    ensures VisitOf(outs, i).Blocked? ==> UnplacedSet(outs) != {}
    ensures VisitOf(outs, i).Ignore? <==> !Related(outs[i])
  {
    if VisitOf(outs, i).Blocked? {
      assert FindOutput(outs, outs[i].relativeTo).value in UnplacedSet(outs);
    }
  }

  method PlacePass(outputs: array<Output>, ghost stuck: set<nat>) returns (r: PassEnd)
    requires Chains.Stuck(Edges(outputs[..]), stuck) && stuck <= UnplacedSet(outputs[..])
    modifies outputs
    ensures OnlyPlaced(old(outputs[..]), outputs[..])
    ensures old(Consistent(outputs[..])) ==> Consistent(outputs[..])
    ensures stuck <= UnplacedSet(outputs[..]) <= UnplacedSet(old(outputs[..]))
    ensures r.Aborted? <==> SomeMissing(old(outputs[..]))
    ensures r.Finished? ==> outputs[..] == PassOver(old(outputs[..]), outputs.Length)
    ensures r.Finished? ==> (r.keepGoing <==> !Unblocked(old(outputs[..]), outputs.Length))
    ensures r.Finished? && r.keepGoing ==> UnplacedSet(old(outputs[..])) != {}
    ensures r.Finished? && !r.keepGoing ==> UnplacedSet(outputs[..]) == {}
    ensures r.Finished? ==> (r.anySet <==> Placeable(old(outputs[..])))
    ensures r.Finished? && UnplacedSet(outputs[..]) == UnplacedSet(old(outputs[..])) ==>
              AllBlocked(outputs[..], outputs.Length)
  {
    ghost var start := outputs[..];
    var keepGoing, anySet := false, false;
    var i := 0;
    while i < outputs.Length
      invariant 0 <= i <= outputs.Length
      invariant PassState(start, outputs[..], i, keepGoing, anySet)
      invariant PassFollows(start, outputs[..], i, keepGoing)
      invariant stuck <= UnplacedSet(outputs[..])
    {
      ghost var now := outputs[..];
      StuckStays(start, now, stuck, i);
      PlaceableStays(start, now, i);
      var v := VisitOutput(outputs, i);
      if v.Missing? {
        PassAborted(start, now, i);
        return Aborted;
      }
      PassStep(start, now, i, keepGoing, anySet);
      FollowStep(start, now, i, keepGoing);
      match v {
        case Blocked =>
          keepGoing := true;
        case Place(_) =>
          anySet := true;
        case _ =>
      }
      i := i + 1;
    }
    r := Finished(keepGoing, anySet);
    PassFinished(start, outputs[..], keepGoing, anySet);
  }

  lemma PassAborted(start: seq<Output>, now: seq<Output>, i: nat)
    requires OnlyPlaced(start, now) && i < |now| && VisitOf(now, i).Missing?
    ensures SomeMissing(start)
  {
    PlaceableStays(start, now, i);
  }

  lemma PassFinished(start: seq<Output>, now: seq<Output>, keepGoing: bool, anySet: bool)
    requires PassState(start, now, |now|, keepGoing, anySet)
    ensures !SomeMissing(start)
    ensures !keepGoing ==> UnplacedSet(now) == {}
    ensures anySet <==> Placeable(start)
    ensures UnplacedSet(now) == UnplacedSet(start) ==> AllBlocked(now, |now|)
  {
  }

  lemma StuckStays(start: seq<Output>, now: seq<Output>, stuck: set<nat>, i: nat)
    requires OnlyPlaced(start, now) && i < |now|
    requires Chains.Stuck(Edges(start), stuck) && stuck <= UnplacedSet(now)
    ensures stuck <= UnplacedSet(Visited(now, i))
  {
    OnlyPlacedKeepsStuck(start, now, stuck);
    if i in stuck {
      StuckIsBlocked(now, stuck, i);
    }
    if VisitOf(now, i).Place? {
      PlacingOne(now, i);
    }
  }

  lemma OnlyPlacedKeepsStuck(a: seq<Output>, b: seq<Output>, stuck: set<nat>)
    requires OnlyPlaced(a, b) && Chains.Stuck(Edges(a), stuck)
    ensures Chains.Stuck(Edges(b), stuck)
  {
    OnlyPlacedKeepsEdges(a, b);
    forall i | i in stuck ensures Chains.HasNext(Edges(b), stuck, i) {
      assert Chains.HasNext(Edges(a), stuck, i);
      var j :| j in stuck && Edges(a)(i, j);
      assert Edges(b)(i, j);
    }
  }

  // ---- The repeated passes and the final shift ----

  datatype Outcome = Done | NoSuchOutput | RelationLoop | StillGoing

  /** No output has both a fixed position and a relation. */
  ghost predicate NonePlaced(outs: seq<Output>) {
    forall i | 0 <= i < |outs| && Related(outs[i]) :: Unplaced(outs[i])
  }

  /** Every related output sits where its relation puts it. */
  ghost predicate Solved(outs: seq<Output>) {
    Consistent(outs) && UnplacedSet(outs) == {}
  }

  const FAR := 32768

  function LeastX(outs: seq<Output>): int {
    if outs == [] then FAR
    else
      var last := |outs| - 1;
      var rest := LeastX(outs[..last]);
      if Lit(outs[last]) && outs[last].x < rest then outs[last].x else rest
  }

  function LeastY(outs: seq<Output>): int {
    if outs == [] then FAR
    else
      var last := |outs| - 1;
      var rest := LeastY(outs[..last]);
      if Lit(outs[last]) && outs[last].y < rest then outs[last].y else rest
  }

  function Moved(o: Output, dx: int, dy: int): Output {
    if Lit(o) && (dx != 0 || dy != 0) then
      o.(x := o.x - dx, y := o.y - dy, changes := o.changes + {ChangePosition})
    else
      o
  }

  /** The layout shifted so that its upper left corner is at the origin. */
  ghost predicate IsNormalised(a: seq<Output>, b: seq<Output>) {
    && |a| == |b|
    && forall i | 0 <= i < |a| :: b[i] == Moved(a[i], LeastX(a), LeastY(a))
  }

  method Normalise(outputs: array<Output>)
    modifies outputs
    ensures IsNormalised(old(outputs[..]), outputs[..])
  {
    ghost var start := outputs[..];
    var minX, minY := FAR, FAR;
    var i := 0;
    while i < outputs.Length
      invariant 0 <= i <= outputs.Length
      invariant outputs[..] == start
      invariant minX == LeastX(start[..i]) && minY == LeastY(start[..i])
    {
      assert start[..i + 1][..i] == start[..i];
      if outputs[i].mode.Some? {
        if outputs[i].x < minX { minX := outputs[i].x; }
        if outputs[i].y < minY { minY := outputs[i].y; }
      }
      i := i + 1;
    }
    assert start[..i] == start;
    if minX != 0 || minY != 0 {
      i := 0;
      while i < outputs.Length
        invariant 0 <= i <= outputs.Length
        invariant forall j | 0 <= j < i :: outputs[j] == Moved(start[j], minX, minY)
        invariant forall j | i <= j < outputs.Length :: outputs[j] == start[j]
      {
        if outputs[i].mode.Some? {
          outputs[i] := outputs[i].(x := outputs[i].x - minX, y := outputs[i].y - minY,
                                    changes := outputs[i].changes + {ChangePosition});
        }
        i := i + 1;
      }
    }
  }

  /** The list after `n` whole passes. */
  function AfterPasses(outs: seq<Output>, n: nat): (r: seq<Output>)
    ensures |r| == |outs|
  {
    if n == 0 then outs
    else
      var before := AfterPasses(outs, n - 1);
      PassOver(before, |before|)
  }

  /** No visit of the pass behind `n` others is blocked. */
  ghost predicate UnblockedAfter(outs: seq<Output>, n: nat) {
    Unblocked(AfterPasses(outs, n), |outs|)
  }

  /** The pass behind `n` others is the first that blocks nobody. */
  ghost predicate FirstUnblocked(outs: seq<Output>, n: nat) {
    UnblockedAfter(outs, n) && NoneUnblocked(outs, n)
  }

  /** Each of the first `n` passes blocks somebody. */
  ghost predicate NoneUnblocked(outs: seq<Output>, n: nat) {
    forall m | 0 <= m < n :: !UnblockedAfter(outs, m)
  }

  /** `b` is what the passes make of `a`, up to the first that blocks nobody, and normalising of that. */
  ghost predicate Settles(a: seq<Output>, b: seq<Output>) {
    exists n: nat :: FirstUnblocked(a, n) && IsNormalised(AfterPasses(a, n + 1), b)
  }

  /** So the whole layout is determined by the list. */
  lemma SettlesOneWay(a: seq<Output>, b: seq<Output>, c: seq<Output>)
    requires Settles(a, b) && Settles(a, c)
    ensures b == c
  {
    var n: nat :| FirstUnblocked(a, n) && IsNormalised(AfterPasses(a, n + 1), b);
    var m: nat :| FirstUnblocked(a, m) && IsNormalised(AfterPasses(a, m + 1), c);
    assert !(n < m) && !(m < n);
  }

  lemma {:induction false} PassesOnlyPlace(outs: seq<Output>, n: nat)
    ensures OnlyPlaced(outs, AfterPasses(outs, n))
  {
    if n > 0 {
      PassesOnlyPlace(outs, n - 1);
      PassOnlyPlaces(AfterPasses(outs, n - 1), |outs|);
      OnlyPlacedTransitive(outs, AfterPasses(outs, n - 1), AfterPasses(outs, n));
    }
  }

  /** `b` is a normalised solution of the relations in `a`. */
  ghost predicate Solves(a: seq<Output>, b: seq<Output>) {
    exists p :: OnlyPlaced(a, p) && Solved(p) && IsNormalised(p, b)
  }

  lemma MissingStays(a: seq<Output>, b: seq<Output>)
    requires OnlyPlaced(a, b)
    ensures SomeMissing(a) <==> SomeMissing(b)
    ensures Placeable(a) ==> Placeable(b)
    ensures Cyclic(a) <==> Cyclic(b)
  {
    forall i | 0 <= i < |a|
      ensures VisitOf(a, i).Missing? <==> VisitOf(b, i).Missing?
      ensures VisitOf(a, i).Place? ==> VisitOf(b, i).Place?
    {
      PlaceableStays(a, b, i);
    }
    OnlyPlacedKeepsCycles(a, b);
  }

  lemma OnlyPlacedKeepsCycles(a: seq<Output>, b: seq<Output>)
    requires OnlyPlaced(a, b)
    ensures Cyclic(a) <==> Cyclic(b)
  {
    Chains.StuckIffCyclic(Edges(a));
    Chains.StuckIffCyclic(Edges(b));
    OnlyPlacedKeepsEdges(a, b);
    forall s: set<nat> ensures Chains.Stuck(Edges(a), s) <==> Chains.Stuck(Edges(b), s) {
      SameEdgesSameStuck(Edges(a), Edges(b), s);
      SameEdgesSameStuck(Edges(b), Edges(a), s);
    }
  }

  lemma SameEdgesSameStuck(e: Chains.Relation, f: Chains.Relation, s: set<nat>)
    requires forall i, j :: e(i, j) <==> f(i, j)
    ensures Chains.Stuck(e, s) ==> Chains.Stuck(f, s)
  {
    if Chains.Stuck(e, s) {
      forall i | i in s ensures Chains.HasNext(f, s, i) {
        assert Chains.HasNext(e, s, i);
        var j :| j in s && e(i, j);
        assert f(i, j);
      }
    }
  }

  /** A pass that leaves everything unplaced blocked proves a circle, in the list it started from as well. */
  lemma Progress(start: seq<Output>, outs: seq<Output>)
    requires OnlyPlaced(start, outs) && UnplacedSet(outs) <= UnplacedSet(start)
    requires UnplacedSet(outs) != {} && AllBlocked(outs, |outs|)
    ensures Deadlocked(start)
  {
    BlockedAreStuck(outs);
    OnlyPlacedKeepsEdges(start, outs);
    SameEdgesSameStuck(Edges(outs), Edges(start), UnplacedSet(outs));
    DeadlockedIfWaiting(start, UnplacedSet(outs));
  }

  lemma NothingPlaceable(outs: seq<Output>)
    requires !Placeable(outs) && !SomeMissing(outs)
    ensures AllBlocked(outs, |outs|)
  {
    forall j | 0 <= j < |outs| && Unplaced(outs[j]) ensures VisitOf(outs, j).Blocked? {
      var v := VisitOf(outs, j);
      assert !v.Place? && !v.Missing?;
    }
  }

  lemma {:induction false} CountIndices(s: set<nat>, n: nat)
    requires forall i | i in s :: i < n
    ensures |s| <= n
  {
    if n > 0 {
      CountIndices(s - {n - 1}, n - 1);
    } else {
      assert s == {};
    }
  }

  /** How `set_positions` ends; here `StillGoing` means never. */
  ghost function Verdict(outs: seq<Output>): Outcome {
    if SomeMissing(outs) then NoSuchOutput
    else if !Deadlocked(outs) then Done
    else if Placeable(outs) then StillGoing
    else RelationLoop
  }

  /** The whole of `set_positions`, cut off after `limit` passes. */
  method SetPositions(d: Display, limit: nat) returns (r: Outcome)
    modifies d.outputs
    ensures r == Verdict(old(d.outputs[..])) || (r.StillGoing? && limit <= d.outputs.Length)
    ensures r.Done? ==> Settles(old(d.outputs[..]), d.outputs[..])
    ensures r.Done? && Consistent(old(d.outputs[..])) ==> Solves(old(d.outputs[..]), d.outputs[..])
    ensures r.Done? && NonePlaced(old(d.outputs[..])) ==> !Cyclic(old(d.outputs[..]))
  {
    ghost var start := d.outputs[..];
    ghost var stuck := ChooseWaiting(start);
    CountIndices(UnplacedSet(start), |start|);
    var passes := 0;
    while true
      invariant passes <= limit && Passing(start, d.outputs[..], passes, stuck)
      decreases limit - passes
    {
      if passes == limit {
        return StillGoing;
      }
      ghost var now := d.outputs[..];
      OnlyPlacedKeepsStuck(start, now, stuck);
      MissingStays(start, now);
      var end := PlacePass(d.outputs, stuck);
      if end.Aborted? {
        return NoSuchOutput;
      }
      OnlyPlacedTransitive(start, now, d.outputs[..]);
      assert d.outputs[..] == AfterPasses(start, passes + 1);
      if !end.keepGoing {
        Finish(d.outputs, start, passes);
        if NonePlaced(start) {
          DeadlockedIffCyclic(start);
        }
        return Done;
      }
      if !end.anySet {
        NothingPlaceable(start);
        Progress(start, start);
        return RelationLoop;
      }
      PassMade(start, now, d.outputs[..], passes, stuck);
      passes := passes + 1;
    }
  }

  /** What holds after some passes that each blocked somebody. */
  ghost predicate Passing(start: seq<Output>, now: seq<Output>, passes: nat, stuck: set<nat>) {
    && now == AfterPasses(start, passes) && NoneUnblocked(start, passes)
    && OnlyPlaced(start, now) && (Consistent(start) ==> Consistent(now))
    && Waiting(start, stuck) && (stuck != {} <==> Deadlocked(start))
    && stuck <= UnplacedSet(now) <= UnplacedSet(start)
    && (passes > 0 ==> !SomeMissing(start) && Placeable(start))
    && (!Deadlocked(start) ==> |UnplacedSet(now)| <= |start| - passes)
  }

  lemma PassMade(start: seq<Output>, now: seq<Output>, next: seq<Output>, passes: nat, stuck: set<nat>)
    requires Passing(start, now, passes, stuck) && next == AfterPasses(start, passes + 1)
    requires OnlyPlaced(start, next) && (Consistent(start) ==> Consistent(next))
    requires stuck <= UnplacedSet(next) <= UnplacedSet(now) && UnplacedSet(now) != {}
    requires UnplacedSet(next) == UnplacedSet(now) ==> AllBlocked(next, |next|)
    requires !SomeMissing(start) && Placeable(start) && !UnblockedAfter(start, passes)
    ensures Passing(start, next, passes + 1, stuck)
  {
    if !Deadlocked(start) {
      FewerUnplaced(start, now, next);
    }
  }

  /** The shift after the last pass. */
  method Finish(outputs: array<Output>, ghost start: seq<Output>, ghost passes: nat)
    requires FirstUnblocked(start, passes) && outputs[..] == AfterPasses(start, passes + 1)
    requires OnlyPlaced(start, outputs[..]) && UnplacedSet(outputs[..]) == {}
    requires Consistent(start) ==> Consistent(outputs[..])
    modifies outputs
    ensures Settles(start, outputs[..]) && (Consistent(start) ==> Solves(start, outputs[..]))
  {
    ghost var placed := outputs[..];
    Normalise(outputs);
    assert Consistent(start) ==> OnlyPlaced(start, placed) && Solved(placed) && IsNormalised(placed, outputs[..]);
  }

  lemma {:induction false} PassOnlyPlaces(outs: seq<Output>, n: nat)
    requires n <= |outs|
    ensures OnlyPlaced(outs, PassOver(outs, n))
    ensures forall k | n <= k < |outs| :: PassOver(outs, n)[k] == outs[k]
    ensures forall k | 0 <= k < n :: PassOver(outs, n)[k] == PassOver(outs, k + 1)[k]
  {
    if n > 0 {
      PassOnlyPlaces(outs, n - 1);
      var before := PassOver(outs, n - 1);
      if VisitOf(before, n - 1).Place? {
        PlacingOne(before, n - 1);
      }
      OnlyPlacedTransitive(outs, before, PassOver(outs, n));
    }
  }

  lemma FewerUnplaced(start: seq<Output>, before: seq<Output>, after: seq<Output>)
    requires OnlyPlaced(start, after) && !Deadlocked(start)
    requires UnplacedSet(after) <= UnplacedSet(before) <= UnplacedSet(start) && UnplacedSet(before) != {}
    requires UnplacedSet(after) == UnplacedSet(before) ==> AllBlocked(after, |after|)
    ensures |UnplacedSet(after)| < |UnplacedSet(before)|
  {
    if UnplacedSet(after) == UnplacedSet(before) {
      Progress(start, after);
    } else {
      SmallerSubset(UnplacedSet(after), UnplacedSet(before));
    }
  }

  lemma {:induction false} SmallerSubset(a: set<nat>, b: set<nat>)
    requires a <= b && a != b
    ensures |a| < |b|
  {
    var rest := b - a;
    assert b == a + rest && a !! rest;
    assert rest != {};
  }
}
