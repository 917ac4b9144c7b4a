/** Walks and cycles of a relation on finitely many numbers. */
module Chains {

  type Relation = (nat, nat) -> bool

  ghost predicate Walk(edge: Relation, w: seq<nat>) {
    forall k, next | 0 <= k < next < |w| && next == k + 1 :: edge(w[k], w[next])
  }

  ghost predicate Cycle(edge: Relation, w: seq<nat>) {
    |w| >= 2 && w[0] == w[|w| - 1] && Walk(edge, w)
  }

  ghost predicate Cyclic(edge: Relation) {
    exists w :: Cycle(edge, w)
  }

  /** A set whose members all have a successor in the set. */
  ghost predicate Stuck(edge: Relation, s: set<nat>) {
    forall i {:trigger HasNext(edge, s, i)} | i in s :: HasNext(edge, s, i)
  }

  ghost predicate HasNext(edge: Relation, s: set<nat>, i: nat) {
    exists j :: j in s && edge(i, j)
  }

  lemma CycleIsStuck(edge: Relation, w: seq<nat>) returns (s: set<nat>)
    requires Cycle(edge, w)
    ensures s != {} && Stuck(edge, s)
  {
    s := set k | 0 <= k < |w| :: w[k];
    assert w[0] in s;
    forall i | i in s ensures HasNext(edge, s, i) {
      var k :| 0 <= k < |w| && w[k] == i;
      var m := if k == |w| - 1 then 0 else k;
      assert edge(w[m], w[m + 1]) && w[m + 1] in s;
    }
  }

  lemma {:induction false} StuckWalk(edge: Relation, s: set<nat>, start: nat, length: nat) returns (w: seq<nat>)
    requires Stuck(edge, s) && start in s
    ensures |w| == length + 1 && Walk(edge, w)
    ensures forall k | 0 <= k < |w| :: w[k] in s
  {
    if length == 0 {
      w := [start];
    } else {
      var front := StuckWalk(edge, s, start, length - 1);
      assert HasNext(edge, s, front[length - 1]);
      var j :| j in s && edge(front[length - 1], j);
      w := front + [j];
    }
  }

  /** A sequence longer than the number of its possible values repeats one. */
  lemma {:induction false} Pigeonhole(w: seq<nat>, values: set<nat>) returns (p: nat, q: nat)
    requires |w| > |values|
    requires forall k | 0 <= k < |w| :: w[k] in values
    ensures p < q < |w| && w[p] == w[q]
    decreases |values|
  {
    var last := |w| - 1;
    if k :| 0 <= k < last && w[k] == w[last] {
      p, q := k, last;
    } else {
      assert w[last] in values;
      p, q := Pigeonhole(w[..last], values - {w[last]});
    }
  }

  /** A relation on finitely many numbers has a cycle exactly when some non-empty set is stuck. */
  lemma StuckIffCyclic(edge: Relation)
    ensures (exists s :: s != {} && Stuck(edge, s)) <==> Cyclic(edge)
  {
    if s :| s != {} && Stuck(edge, s) {
      var start :| start in s;
      var w := StuckWalk(edge, s, start, |s|);
      var p, q := Pigeonhole(w, s);
      var cycle := w[p..q + 1];
      assert Walk(edge, cycle) by {
        forall k, next | 0 <= k < next < |cycle| && next == k + 1 ensures edge(cycle[k], cycle[next]) {
          assert edge(w[p + k], w[p + next]);
        }
      }
      assert Cycle(edge, cycle);
    }
    if w :| Cycle(edge, w) {
      var s := CycleIsStuck(edge, w);
    }
  }
}
