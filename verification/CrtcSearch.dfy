/** The search for the best assignment of CRTCs to outputs: `check_crtc_for_output`, `pick_crtcs_score`. */
module CrtcSearch {
  import opened Basics
  import opened Geometry
  import opened Displays

  type Assignment = seq<Option<nat>>

  function AssignmentOf(outs: seq<Output>): (a: Assignment)
    ensures |a| == |outs|
    ensures forall i | 0 <= i < |outs| :: a[i] == outs[i].crtc
  {
    seq(|outs|, i requires 0 <= i < |outs| => outs[i].crtc)
  }

  /** The lists differ at most in their assignments, and only from `k` on. */
  ghost predicate OnlyReassigned(a: seq<Output>, b: seq<Output>, k: nat) {
    && |a| == |b|
    && (forall i | 0 <= i < |a| :: b[i] == a[i].(crtc := b[i].crtc))
    && (forall i | 0 <= i < |a| && i < k :: b[i] == a[i])
  }

  // ---- When a CRTC suits an output ----

  /** The output names CRTC `c` as one that can drive it. */
  predicate Listed(o: Output, crtcs: seq<Crtc>, c: nat) {
    c < |crtcs| && crtcs[c].xid in o.info.crtcs
  }

  /** The CRTC is idle or already shows just what the output wants. */
  predicate StateMatches(o: Output, crtcs: seq<Crtc>, modes: seq<Mode>, c: nat)
    requires c < |crtcs|
  {
    var crtc := crtcs[c];
    if |crtc.outputs| > 0 then
      crtc.mode == o.mode && crtc.x == o.x && crtc.y == o.y && crtc.rotation == o.rotation
          && crtc.current == o.transform
    else if |crtc.info.outputs| > 0 then
      FindMode(modes, crtc.info.mode) == o.mode && crtc.info.x == o.x && crtc.info.y == o.y
          && crtc.info.rotation == o.rotation
    else
      true
  }

  /** Output `i` can share CRTC `c` with output `j`, if `j` uses it. */
  predicate CanShare(outs: seq<Output>, i: nat, j: nat, c: nat)
    requires i < |outs| && j < |outs|
  {
    j != i && Lit(outs[j]) && outs[j].crtc == Some(c) ==> outs[j].xid in outs[i].info.clones
  }

  predicate Suits(outs: seq<Output>, crtcs: seq<Crtc>, modes: seq<Mode>, c: nat, i: nat)
    requires i < |outs|
  {
    && Listed(outs[i], crtcs, c)
    && StateMatches(outs[i], crtcs, modes, c)
    && forall j | 0 <= j < |outs| :: CanShare(outs, i, j, c)
  }

  /** What the CRTC is to run, or else runs on some outputs, is just what this output wants; or it is idle. */
  ghost predicate RunsAlready(o: Output, crtc: Crtc, modes: seq<Mode>) {
    && (crtc.outputs != [] ==>
          o == o.(mode := crtc.mode, x := crtc.x, y := crtc.y, rotation := crtc.rotation, transform := crtc.current))
    && (crtc.outputs == [] && crtc.info.outputs != [] ==>
          o == o.(mode := FindMode(modes, crtc.info.mode), x := crtc.info.x, y := crtc.info.y,
                  rotation := crtc.info.rotation))
  }

  lemma SuitsMeans(outs: seq<Output>, crtcs: seq<Crtc>, modes: seq<Mode>, c: nat, i: nat)
    requires i < |outs| && c < |crtcs|
    ensures Suits(outs, crtcs, modes, c, i)
            <==> && crtcs[c].xid in outs[i].info.crtcs && RunsAlready(outs[i], crtcs[c], modes)
                 && forall j | 0 <= j < |outs| && j != i && Lit(outs[j]) && outs[j].crtc == Some(c) ::
                      outs[j].xid in outs[i].info.clones
  {
    assert StateMatches(outs[i], crtcs, modes, c) <==> RunsAlready(outs[i], crtcs[c], modes);
    forall j | 0 <= j < |outs|
      ensures CanShare(outs, i, j, c) <==> (j != i && Lit(outs[j]) && outs[j].crtc == Some(c) ==>
                                              outs[j].xid in outs[i].info.clones)
    {
    }
  }

  method CheckCrtcForOutput(d: Display, modes: seq<Mode>, c: nat, i: nat) returns (ok: bool)
    requires c < d.crtcs.Length && i < d.outputs.Length
    ensures ok <==> Suits(d.outputs[..], d.crtcs[..], modes, c, i)
    ensures ok <==>
            && (var o := d.outputs[i]; d.crtcs[c].xid in o.info.crtcs && RunsAlready(o, d.crtcs[c], modes))
            && forall j | 0 <= j < d.outputs.Length && j != i && Lit(d.outputs[j]) && d.outputs[j].crtc == Some(c) ::
                 d.outputs[j].xid in d.outputs[i].info.clones
  {
    SuitsMeans(d.outputs[..], d.crtcs[..], modes, c, i);
    var crtc, output := d.crtcs[c], d.outputs[i];
    if crtc.xid !in output.info.crtcs {
      return false;
    }
    var j := 0;
    while j < d.outputs.Length
      invariant 0 <= j <= d.outputs.Length
      invariant forall k | 0 <= k < j :: CanShare(d.outputs[..], i, k, c)
    {
      var other := d.outputs[j];
      if j != i && other.mode.Some? && other.crtc == Some(c) && other.xid !in output.info.clones {
        assert !CanShare(d.outputs[..], i, j, c);
        return false;
      }
      j := j + 1;
    }
    ok := StateMatches(output, d.crtcs[..], modes, c);
  }

  // ---- The search ----

  /** An assignment that the search may make for output `i`, given the outputs before it. */
  ghost predicate Allowed(outs: seq<Output>, crtcs: seq<Crtc>, modes: seq<Mode>, a: Assignment, i: nat)
    requires |a| == |outs| && i < |a|
  {
    match a[i]
    case None => true
    case Some(c) =>
      && Lit(outs[i])
      && Listed(outs[i], crtcs, c) && FindCrtc(crtcs, crtcs[c].xid) == Some(c)
      && StateMatches(outs[i], crtcs, modes, c)
      && forall j | 0 <= j < i && Lit(outs[j]) && a[j] == a[i] :: outs[j].xid in outs[i].info.clones
  }

  ghost predicate Admissible(outs: seq<Output>, crtcs: seq<Crtc>, modes: seq<Mode>, a: Assignment, k: nat) {
    |a| == |outs| && forall i | k <= i < |a| :: Allowed(outs, crtcs, modes, a, i)
  }

  /** 1000 for every output that gets a CRTC, and one more when it keeps its own. */
  function Worth(o: Output, c: Option<nat>): nat {
    if c.None? then 0 else if c == o.currentCrtc then 1001 else 1000
  }

  function Score(outs: seq<Output>, a: Assignment, k: nat): nat
    requires |a| == |outs| && k <= |a|
    decreases |a| - k
  {
    if k == |a| then 0 else Worth(outs[k], a[k]) + Score(outs, a, k + 1)
  }

  /** `score` is attained by `best` and by no admissible assignment exceeded, among those that agree before `k`. */
  ghost predicate Optimal(outs: seq<Output>, crtcs: seq<Crtc>, modes: seq<Mode>, best: Assignment, k: nat, score: nat) {
    && k <= |outs|
    && Admissible(outs, crtcs, modes, best, k)
    && Score(outs, best, k) == score
    && forall a: Assignment | |a| == |outs| && a[..k] == best[..k] && Admissible(outs, crtcs, modes, a, k) ::
         Score(outs, a, k) <= score
  }

  /** Some lit output from `k` on lists a CRTC that the server did not report. */
  ghost predicate UnknownCrtc(outs: seq<Output>, crtcs: seq<Crtc>, k: nat) {
    exists i :: k <= i < |outs| && Lit(outs[i]) && exists x :: x in outs[i].info.crtcs && FindCrtc(crtcs, x).None?
  }

  method DisableOutputs(outputs: array<Output>, k: nat)
    requires k <= outputs.Length
    modifies outputs
    ensures OnlyReassigned(old(outputs[..]), outputs[..], k)
    ensures forall i | k <= i < outputs.Length :: outputs[i].crtc.None?
  {
    var i := k;
    while i < outputs.Length
      invariant k <= i <= outputs.Length
      invariant OnlyReassigned(old(outputs[..]), outputs[..], k)
      invariant forall j | k <= j < i :: outputs[j].crtc.None?
    {
      outputs[i] := outputs[i].(crtc := None);
      i := i + 1;
    }
  }

  // ---- The search ignores the assignments it starts from ----

  lemma {:induction false} ReassigningKeepsScore(a: seq<Output>, b: seq<Output>, asg: Assignment, k: nat)
    requires OnlyReassigned(a, b, 0) && |asg| == |a| && k <= |a|
    ensures Score(a, asg, k) == Score(b, asg, k)
    decreases |a| - k
  {
    if k < |a| {
      assert b[k] == a[k].(crtc := b[k].crtc);
      ReassigningKeepsScore(a, b, asg, k + 1);
    }
  }

  lemma ReassigningKeepsAllowed(a: seq<Output>, b: seq<Output>, crtcs: seq<Crtc>, modes: seq<Mode>, asg: Assignment,
                                i: nat)
    requires OnlyReassigned(a, b, 0) && |asg| == |a| && i < |a|
    ensures Allowed(a, crtcs, modes, asg, i) <==> Allowed(b, crtcs, modes, asg, i)
  {
    assert forall j | 0 <= j < |a| :: b[j] == a[j].(crtc := b[j].crtc);
  }

  lemma ReassigningKeepsAdmissible(a: seq<Output>, b: seq<Output>, crtcs: seq<Crtc>, modes: seq<Mode>,
                                   asg: Assignment, k: nat)
    requires OnlyReassigned(a, b, 0) && |asg| == |a|
    ensures Admissible(a, crtcs, modes, asg, k) <==> Admissible(b, crtcs, modes, asg, k)
  {
    forall i | k <= i < |a| ensures Allowed(a, crtcs, modes, asg, i) <==> Allowed(b, crtcs, modes, asg, i) {
      ReassigningKeepsAllowed(a, b, crtcs, modes, asg, i);
    }
  }

  lemma ReassigningKeepsOptimal(a: seq<Output>, b: seq<Output>, crtcs: seq<Crtc>, modes: seq<Mode>, best: Assignment,
                                k: nat, score: nat)
    requires OnlyReassigned(a, b, 0) && Optimal(a, crtcs, modes, best, k, score)
    ensures Optimal(b, crtcs, modes, best, k, score)
  {
    ReassigningKeepsAdmissible(a, b, crtcs, modes, best, k);
    ReassigningKeepsScore(a, b, best, k);
    forall asg: Assignment | |asg| == |b| && asg[..k] == best[..k] && Admissible(b, crtcs, modes, asg, k)
      ensures Score(b, asg, k) <= score
    {
      ReassigningKeepsAdmissible(a, b, crtcs, modes, asg, k);
      ReassigningKeepsScore(a, b, asg, k);
    }
  }

  lemma ReassigningKeepsUnknown(a: seq<Output>, b: seq<Output>, crtcs: seq<Crtc>, k: nat)
    requires OnlyReassigned(a, b, 0)
    ensures UnknownCrtc(a, crtcs, k) <==> UnknownCrtc(b, crtcs, k)
  {
    assert forall j | 0 <= j < |a| :: b[j] == a[j].(crtc := b[j].crtc);
  }

  // ---- One output of the search ----

  /** Assignments that agree with `prefix` and give output `k` the choice `choice` score at most `score`. */
  ghost predicate ChoiceBounded(outs: seq<Output>, crtcs: seq<Crtc>, modes: seq<Mode>, prefix: Assignment,
                                choice: Option<nat>, score: nat)
  {
    forall a: Assignment | |a| == |outs| && |prefix| < |a| && a[..|prefix|] == prefix && a[|prefix|] == choice
                           && Admissible(outs, crtcs, modes, a, |prefix|) ::
      Score(outs, a, |prefix|) <= score
  }

  /** An assignment that attains `score` from the output after `prefix` on. */
  ghost predicate Attains(outs: seq<Output>, crtcs: seq<Crtc>, modes: seq<Mode>, prefix: Assignment, a: Assignment,
                          score: nat) {
    && |a| == |outs| && |prefix| < |a| && a[..|prefix|] == prefix
    && Admissible(outs, crtcs, modes, a, |prefix|)
    && Score(outs, a, |prefix|) == score
  }

  lemma NextIsAdmissible(outs: seq<Output>, crtcs: seq<Crtc>, modes: seq<Mode>, a: Assignment, k: nat)
    requires |a| == |outs| && k < |a|
    ensures Admissible(outs, crtcs, modes, a, k)
            <==> Allowed(outs, crtcs, modes, a, k) && Admissible(outs, crtcs, modes, a, k + 1)
  {
  }

  /** The best continuation of one choice bounds every assignment that makes it. */
  lemma ChoiceExplored(outs: seq<Output>, crtcs: seq<Crtc>, modes: seq<Mode>, prefix: Assignment, best: Assignment,
                       score: nat)
    requires |prefix| < |outs| && |best| == |outs| && best[..|prefix|] == prefix
    requires Allowed(outs, crtcs, modes, best, |prefix|)
    requires Optimal(outs, crtcs, modes, best, |prefix| + 1, score)
    ensures ChoiceBounded(outs, crtcs, modes, prefix, best[|prefix|], Worth(outs[|prefix|], best[|prefix|]) + score)
    ensures Attains(outs, crtcs, modes, prefix, best, Worth(outs[|prefix|], best[|prefix|]) + score)
  {
    var k := |prefix|;
    NextIsAdmissible(outs, crtcs, modes, best, k);
    forall a: Assignment | |a| == |outs| && a[..k] == prefix && a[k] == best[k] && Admissible(outs, crtcs, modes, a, k)
      ensures Score(outs, a, k) <= Worth(outs[k], best[k]) + score
    {
      NextIsAdmissible(outs, crtcs, modes, a, k);
      assert a[..k + 1] == a[..k] + [a[k]] && best[..k + 1] == best[..k] + [best[k]];
    }
  }

  /** With the later outputs switched off, the test on the list is the test on the assignment. */
  lemma SuitsIsAllowed(now: seq<Output>, crtcs: seq<Crtc>, modes: seq<Mode>, a: Assignment, k: nat, c: nat)
    requires k < |now| && Lit(now[k]) && |a| == |now| && c < |crtcs| && FindCrtc(crtcs, crtcs[c].xid) == Some(c)
    requires a[..k] == AssignmentOf(now)[..k] && a[k] == Some(c)
    requires forall j | k < j < |now| :: now[j].crtc.None?
    ensures Suits(now, crtcs, modes, c, k) <==> Allowed(now, crtcs, modes, a, k)
  {
    forall j | 0 <= j < k ensures a[j] == now[j].crtc {
      assert a[..k][j] == AssignmentOf(now)[..k][j];
    }
    if Allowed(now, crtcs, modes, a, k) {
      forall j | 0 <= j < |now| ensures CanShare(now, k, j, c) {
      }
    }
    if Suits(now, crtcs, modes, c, k) {
      forall j | 0 <= j < k && Lit(now[j]) && a[j] == a[k] ensures now[j].xid in now[k].info.clones {
        assert CanShare(now, k, j, c);
      }
    }
  }

  /** The choices for output `k` = |prefix| that have been tried when `c` entries of its list are done. */
  ghost predicate Explored(outs: seq<Output>, crtcs: seq<Crtc>, modes: seq<Mode>, prefix: Assignment, c: nat,
                           score: nat)
    requires |prefix| < |outs|
  {
    var list := outs[|prefix|].info.crtcs;
    && ChoiceBounded(outs, crtcs, modes, prefix, None, score)
    && forall e | 0 <= e < c && e < |list| :: ChoiceBounded(outs, crtcs, modes, prefix, FindCrtc(crtcs, list[e]), score)
  }

  /** Once the whole list is explored, every admissible assignment is bounded. */
  lemma AllExplored(outs: seq<Output>, crtcs: seq<Crtc>, modes: seq<Mode>, prefix: Assignment, score: nat,
                    a: Assignment)
    requires |prefix| < |outs| && Explored(outs, crtcs, modes, prefix, |outs[|prefix|].info.crtcs|, score)
    requires |a| == |outs| && a[..|prefix|] == prefix && Admissible(outs, crtcs, modes, a, |prefix|)
    ensures Score(outs, a, |prefix|) <= score
  {
    var k := |prefix|;
    NextIsAdmissible(outs, crtcs, modes, a, k);
    if a[k].Some? {
      var list := outs[k].info.crtcs;
      var e :| 0 <= e < |list| && list[e] == crtcs[a[k].value].xid;
      assert ChoiceBounded(outs, crtcs, modes, prefix, FindCrtc(crtcs, list[e]), score);
    }
  }

  /** Re-running the search below the best choice leaves an optimal assignment behind. */
  lemma BestRestored(outs: seq<Output>, crtcs: seq<Crtc>, modes: seq<Mode>, prefix: Assignment, best: Assignment,
                     score: nat,
                     last: Assignment, rest: nat)
    requires |prefix| < |outs| && Explored(outs, crtcs, modes, prefix, |outs[|prefix|].info.crtcs|, score)
    requires Attains(outs, crtcs, modes, prefix, best, score)
    requires |last| == |outs| && last[..|prefix| + 1] == best[..|prefix| + 1]
    requires Optimal(outs, crtcs, modes, last, |prefix| + 1, rest)
    ensures Optimal(outs, crtcs, modes, last, |prefix|, score)
  {
    var k := |prefix|;
    assert last[..k] == last[..k + 1][..k] && best[..k] == best[..k + 1][..k];
    assert last[k] == last[..k + 1][k] && best[k] == best[..k + 1][k];
    NextIsAdmissible(outs, crtcs, modes, best, k);
    SamePrefixAllowed(outs, crtcs, modes, best, last, k);
    NextIsAdmissible(outs, crtcs, modes, last, k);
    AllExplored(outs, crtcs, modes, prefix, score, last);
    forall a: Assignment | |a| == |outs| && a[..k] == last[..k] && Admissible(outs, crtcs, modes, a, k)
      ensures Score(outs, a, k) <= score
    {
      AllExplored(outs, crtcs, modes, prefix, score, a);
    }
  }

  lemma SamePrefixAllowed(outs: seq<Output>, crtcs: seq<Crtc>, modes: seq<Mode>, a: Assignment, b: Assignment, k: nat)
    requires |a| == |b| == |outs| && k < |a| && a[..k + 1] == b[..k + 1]
    ensures Allowed(outs, crtcs, modes, a, k) <==> Allowed(outs, crtcs, modes, b, k)
  {
    forall j | 0 <= j <= k ensures a[j] == b[j] {
      assert a[..k + 1][j] == b[..k + 1][j];
    }
  }

  /** A CRTC that fails the test is in no admissible assignment. */
  lemma NotSuitable(outs: seq<Output>, now: seq<Output>, crtcs: seq<Crtc>, modes: seq<Mode>, prefix: Assignment,
                    c: nat, score: nat)
    requires OnlyReassigned(outs, now, |prefix|) && |prefix| < |outs| && AssignmentOf(now)[..|prefix|] == prefix
    requires c < |crtcs| && FindCrtc(crtcs, crtcs[c].xid) == Some(c) && Lit(now[|prefix|])
    requires forall j | |prefix| < j < |now| :: now[j].crtc.None?
    requires !Suits(now, crtcs, modes, c, |prefix|)
    ensures ChoiceBounded(outs, crtcs, modes, prefix, Some(c), score)
  {
    var k := |prefix|;
    forall a: Assignment | |a| == |outs| && a[..k] == prefix && a[k] == Some(c)
      ensures !Admissible(outs, crtcs, modes, a, k)
    {
      SuitsIsAllowed(now, crtcs, modes, a, k, c);
      ReassigningKeepsAllowed(outs, now, crtcs, modes, a, k);
    }
  }

  /** A dark output can only go without a CRTC. */
  lemma OnlyChoice(outs: seq<Output>, crtcs: seq<Crtc>, modes: seq<Mode>, prefix: Assignment, best: Assignment,
                   score: nat)
    requires |prefix| < |outs| && !Lit(outs[|prefix|])
    requires ChoiceBounded(outs, crtcs, modes, prefix, None, score) && Attains(outs, crtcs, modes, prefix, best, score)
    ensures Optimal(outs, crtcs, modes, best, |prefix|, score)
  {
    forall a: Assignment | |a| == |outs| && a[..|prefix|] == prefix && Admissible(outs, crtcs, modes, a, |prefix|)
      ensures Score(outs, a, |prefix|) <= score
    {
      assert Allowed(outs, crtcs, modes, a, |prefix|);
    }
  }

  lemma NoneLeft(outs: seq<Output>, crtcs: seq<Crtc>, modes: seq<Mode>, a: Assignment)
    requires |a| == |outs|
    ensures Optimal(outs, crtcs, modes, a, |outs|, 0)
  {
  }

  lemma UnknownStep(outs: seq<Output>, crtcs: seq<Crtc>, k: nat)
    requires k < |outs|
    ensures UnknownCrtc(outs, crtcs, k) <==>
            || UnknownCrtc(outs, crtcs, k + 1)
            || (Lit(outs[k]) && exists x :: x in outs[k].info.crtcs && FindCrtc(crtcs, x).None?)
  {
  }

  /** A CRTC that may be tried for output `k`: nothing, or one that passed the test. */
  ghost predicate Tried(outs: seq<Output>, crtcs: seq<Crtc>, modes: seq<Mode>, k: nat, choice: Option<nat>) {
    k < |outs| &&
    (choice.Some? ==>
       (var c := choice.value;
        && Lit(outs[k]) && c < |crtcs| && FindCrtc(crtcs, crtcs[c].xid) == Some(c)
        && Suits(outs, crtcs, modes, c, k)
        && forall j | k < j < |outs| :: outs[j].crtc.None?))
  }

  lemma OnlyReassignedTransitive(a: seq<Output>, b: seq<Output>, c: seq<Output>, k: nat)
    requires OnlyReassigned(a, b, k) && OnlyReassigned(b, c, k)
    ensures OnlyReassigned(a, c, k)
  {
    forall i | 0 <= i < |a| ensures c[i] == a[i].(crtc := c[i].crtc) && (i < k ==> c[i] == a[i]) {
      assert b[i] == a[i].(crtc := b[i].crtc) && c[i] == b[i].(crtc := c[i].crtc);
    }
  }

  /** Giving output `k` a choice and then reassigning later outputs leaves the earlier ones alone. */
  lemma ChoiceFrame(start: seq<Output>, before: seq<Output>, after: seq<Output>, k: nat, choice: Option<nat>)
    requires OnlyReassigned(start, before, k) && k < |start|
    requires OnlyReassigned(before[k := before[k].(crtc := choice)], after, k + 1)
    ensures OnlyReassigned(start, before[k := before[k].(crtc := choice)], k) && OnlyReassigned(start, after, k)
    ensures after[k].crtc == choice
    ensures AssignmentOf(before)[..k] == AssignmentOf(after)[..k] == AssignmentOf(start)[..k]
  {
    var now := before[k := before[k].(crtc := choice)];
    assert OnlyReassigned(before, now, k) && OnlyReassigned(now, after, k);
    OnlyReassignedTransitive(start, before, now, k);
    OnlyReassignedTransitive(start, now, after, k);
    assert after[k] == now[k];
  }

  lemma OnlyReassignedBack(a: seq<Output>, b: seq<Output>)
    requires OnlyReassigned(a, b, 0)
    ensures OnlyReassigned(b, a, 0)
  {
    forall i | 0 <= i < |a| ensures a[i] == b[i].(crtc := a[i].crtc) {
      assert b[i] == a[i].(crtc := b[i].crtc);
    }
  }

  lemma ChoiceAllowed(start: seq<Output>, tested: seq<Output>, crtcs: seq<Crtc>, modes: seq<Mode>,
                      k: nat, choice: Option<nat>, a: Assignment)
    requires OnlyReassigned(start, tested, k) && Tried(tested, crtcs, modes, k, choice)
    requires |a| == |start| && a[..k] == AssignmentOf(tested)[..k] && a[k] == choice
    ensures Allowed(start, crtcs, modes, a, k)
  {
    if choice.Some? {
      SuitsIsAllowed(tested, crtcs, modes, a, k, choice.value);
      ReassigningKeepsAllowed(start, tested, crtcs, modes, a, k);
    }
  }

  /** What one choice for output `k` and the search after it establish. */
  lemma ChoiceTried(start: seq<Output>, tested: seq<Output>, after: seq<Output>, crtcs: seq<Crtc>, modes: seq<Mode>,
                    k: nat, choice: Option<nat>, score: nat)
    requires OnlyReassigned(start, tested, k) && Tried(tested, crtcs, modes, k, choice)
    requires OnlyReassigned(tested[k := tested[k].(crtc := choice)], after, k + 1)
    requires Optimal(tested[k := tested[k].(crtc := choice)], crtcs, modes, AssignmentOf(after), k + 1, score)
    ensures OnlyReassigned(start, after, k) && after[k].crtc == choice
    ensures var prefix := AssignmentOf(start)[..k];
            && ChoiceBounded(start, crtcs, modes, prefix, choice, Worth(start[k], choice) + score)
            && Attains(start, crtcs, modes, prefix, AssignmentOf(after), Worth(start[k], choice) + score)
  {
    ChoiceFrame(start, tested, after, k, choice);
    ChoiceScored(start, tested[k := tested[k].(crtc := choice)], crtcs, modes, AssignmentOf(after), k, score);
    ChoiceAllowed(start, tested, crtcs, modes, k, choice, AssignmentOf(after));
    ChoiceExplored(start, crtcs, modes, AssignmentOf(start)[..k], AssignmentOf(after), score);
  }

  lemma ChoiceScored(start: seq<Output>, now: seq<Output>, crtcs: seq<Crtc>, modes: seq<Mode>, best: Assignment,
                     k: nat, score: nat)
    requires OnlyReassigned(start, now, k) && Optimal(now, crtcs, modes, best, k + 1, score)
    ensures Optimal(start, crtcs, modes, best, k + 1, score)
  {
    OnlyReassignedBack(start, now);
    ReassigningKeepsOptimal(now, start, crtcs, modes, best, k + 1, score);
  }

  /** Gives output `k` a CRTC, or none, and searches on; returns the worth of the best result. */
  method TryChoice(d: Display, modes: seq<Mode>, k: nat, choice: Option<nat>, ghost start: seq<Output>)
    returns (r: Option<nat>)
    requires OnlyReassigned(start, d.outputs[..], k) && Tried(d.outputs[..], d.crtcs[..], modes, k, choice)
    modifies d.outputs
    ensures OnlyReassigned(start, d.outputs[..], k) && d.outputs[k].crtc == choice
    ensures r.None? <==> UnknownCrtc(start, d.crtcs[..], k + 1)
    ensures r.Some? ==>
              (var prefix := AssignmentOf(start)[..k];
               && ChoiceBounded(start, d.crtcs[..], modes, prefix, choice, r.value)
               && Attains(start, d.crtcs[..], modes, prefix, AssignmentOf(d.outputs[..]), r.value))
    decreases d.outputs.Length - k, 0
  {
    ghost var crtcs, tested := d.crtcs[..], d.outputs[..];
    // where the old CRTC stays, 1001 points instead of 1000
    var myScore := 0;
    if choice.Some? {
      myScore := 1000;
      if choice == d.outputs[k].currentCrtc {
        myScore := myScore + 1;
      }
    }
    assert myScore == Worth(start[k], choice) by {
      assert tested[k] == start[k].(crtc := tested[k].crtc);
    }
    d.outputs[k] := d.outputs[k].(crtc := choice);
    ghost var now := d.outputs[..];
    assert now == tested[k := tested[k].(crtc := choice)];
    OnlyReassignedTransitive(start, tested, now, k);
    ReassigningKeepsUnknown(start, now, crtcs, k + 1);
    r := PickCrtcsScore(d, modes, k + 1);
    if r.Some? {
      ChoiceTried(start, tested, d.outputs[..], crtcs, modes, k, choice, r.value);
      r := Some(myScore + r.value);
    } else {
      OnlyReassignedTransitive(start, now, d.outputs[..], k);
    }
  }

  /** The best choice so far for output `k`. */
  datatype Best = Best(score: nat, crtc: Option<nat>)

  /** The first `c` entries of the list of output `k` were tried; `attained` reaches the best score. */
  ghost predicate Searching(start: seq<Output>, now: seq<Output>, crtcs: seq<Crtc>, modes: seq<Mode>, k: nat, c: nat,
                            best: Best,
                            attained: Assignment)
  {
    && OnlyReassigned(start, now, k)
    && k < |start| && Lit(start[k]) && c <= |start[k].info.crtcs|
    && Explored(start, crtcs, modes, AssignmentOf(start)[..k], c, best.score)
    && Attains(start, crtcs, modes, AssignmentOf(start)[..k], attained, best.score)
    && attained[k] == best.crtc
    && !UnknownCrtc(start, crtcs, k + 1)
    && forall e | 0 <= e < c :: FindCrtc(crtcs, start[k].info.crtcs[e]).Some?
  }

  /** Tries entry `c` of the CRTC list of output `k`. */
  method TryEntry(d: Display, modes: seq<Mode>, k: nat, c: nat, best: Best, ghost start: seq<Output>,
                  ghost attained: Assignment)
    returns (r: Option<Best>, ghost next: Assignment)
    requires Searching(start, d.outputs[..], d.crtcs[..], modes, k, c, best, attained) && c < |start[k].info.crtcs|
    modifies d.outputs
    ensures OnlyReassigned(start, d.outputs[..], k)
    ensures r.None? ==> UnknownCrtc(start, d.crtcs[..], k)
    ensures r.Some? ==> Searching(start, d.outputs[..], d.crtcs[..], modes, k, c + 1, r.value, next)
    decreases d.outputs.Length - k, 1
  {
    ghost var crtcs, prefix := d.crtcs[..], AssignmentOf(start)[..k];
    assert d.outputs[k] == start[k].(crtc := d.outputs[k].crtc);
    var crtc := FindCrtc(d.crtcs[..], d.outputs[k].info.crtcs[c]);
    next := attained;
    if crtc.None? {
      return None, next;
    }
    // the search below gives the later outputs theirs anew
    ghost var before := d.outputs[..];
    DisableOutputs(d.outputs, k + 1);
    ghost var tested := d.outputs[..];
    OnlyReassignedTransitive(start, before, tested, k);
    var suits := CheckCrtcForOutput(d, modes, crtc.value, k);
    r := Some(best);
    if suits {
      var score := TryChoice(d, modes, k, crtc, start);
      if score.value > best.score {
        r, next := Some(Best(score.value, crtc)), AssignmentOf(d.outputs[..]);
      }
    } else {
      assert AssignmentOf(tested)[..k] == prefix;
      NotSuitable(start, tested, crtcs, modes, prefix, crtc.value, best.score);
    }
    ExploreNext(start, crtcs, modes, prefix, c, best.score, r.value.score);
  }

  // None stands for the program stopping with an error.
  method PickCrtcsScore(d: Display, modes: seq<Mode>, k: nat) returns (r: Option<nat>)
    requires k <= d.outputs.Length
    modifies d.outputs
    ensures OnlyReassigned(old(d.outputs[..]), d.outputs[..], k)
    ensures r.None? <==> UnknownCrtc(old(d.outputs[..]), d.crtcs[..], k)
    ensures r.Some? ==> Optimal(old(d.outputs[..]), d.crtcs[..], modes, AssignmentOf(d.outputs[..]), k, r.value)
    decreases d.outputs.Length - k, 2
  {
    ghost var start, crtcs := d.outputs[..], d.crtcs[..];
    if k == d.outputs.Length {
      NoneLeft(start, crtcs, modes, AssignmentOf(start));
      return Some(0);
    }
    UnknownStep(start, crtcs, k);
    // dark is the choice to beat
    r := TryChoice(d, modes, k, None, start);
    assert d.outputs[k] == start[k].(crtc := None);
    if r.None? {
      return;
    }
    ghost var prefix := AssignmentOf(start)[..k];
    if d.outputs[k].mode.None? {
      OnlyChoice(start, crtcs, modes, prefix, AssignmentOf(d.outputs[..]), r.value);
      return;
    }
    var best := Best(r.value, None);
    ghost var attained := AssignmentOf(d.outputs[..]);
    // a choice must be better than those before it in the list
    var c := 0;
    while c < |d.outputs[k].info.crtcs|
      invariant Searching(start, d.outputs[..], crtcs, modes, k, c, best, attained)
      invariant d.outputs[k].info == start[k].info
      decreases |start[k].info.crtcs| - c
    {
      var next;
      next, attained := TryEntry(d, modes, k, c, best, start, attained);
      if next.None? {
        return None;
      }
      best := next.value;
      assert d.outputs[k] == start[k].(crtc := d.outputs[k].crtc);
      c := c + 1;
    }
    RestoreBest(d, modes, k, best, start, attained);
    r := Some(best.score);
  }

  /** What choosing the best CRTC and searching once more establish. */
  lemma RestoredBest(start: seq<Output>, before: seq<Output>, after: seq<Output>, crtcs: seq<Crtc>, modes: seq<Mode>,
                     k: nat, best: Best, attained: Assignment, rest: nat)
    requires k < |start| && Searching(start, before, crtcs, modes, k, |start[k].info.crtcs|, best, attained)
    requires OnlyReassigned(before[k := before[k].(crtc := best.crtc)], after, k + 1)
    requires Optimal(before[k := before[k].(crtc := best.crtc)], crtcs, modes, AssignmentOf(after), k + 1, rest)
    ensures OnlyReassigned(start, after, k)
    ensures Optimal(start, crtcs, modes, AssignmentOf(after), k, best.score)
  {
    var now := before[k := before[k].(crtc := best.crtc)];
    var prefix, last := AssignmentOf(start)[..k], AssignmentOf(after);
    ChoiceFrame(start, before, after, k, best.crtc);
    assert Optimal(start, crtcs, modes, last, k + 1, rest) by {
      OnlyReassignedBack(start, now);
      ReassigningKeepsOptimal(now, start, crtcs, modes, last, k + 1, rest);
    }
    assert last[..k + 1] == last[..k] + [last[k]] && attained[..k + 1] == attained[..k] + [attained[k]];
    BestRestored(start, crtcs, modes, prefix, attained, best.score, last, rest);
  }

  /** Searches once more below the best choice for output `k`, so that the outputs hold an
      assignment with the best score. */
  method RestoreBest(d: Display, modes: seq<Mode>, k: nat, best: Best, ghost start: seq<Output>,
                     ghost attained: Assignment)
    requires k < |start|
    requires Searching(start, d.outputs[..], d.crtcs[..], modes, k, |start[k].info.crtcs|, best, attained)
    modifies d.outputs
    ensures OnlyReassigned(start, d.outputs[..], k)
    ensures Optimal(start, d.crtcs[..], modes, AssignmentOf(d.outputs[..]), k, best.score)
    decreases d.outputs.Length - k, 1
  {
    ghost var crtcs, before := d.crtcs[..], d.outputs[..];
    d.outputs[k] := d.outputs[k].(crtc := best.crtc);
    ghost var now := d.outputs[..];
    assert now == before[k := before[k].(crtc := best.crtc)];
    OnlyReassignedTransitive(start, before, now, k);
    ReassigningKeepsUnknown(start, now, crtcs, k + 1);
    var rest := PickCrtcsScore(d, modes, k + 1);
    RestoredBest(start, before, d.outputs[..], crtcs, modes, k, best, attained, rest.value);
  }

  lemma ExploreNext(outs: seq<Output>, crtcs: seq<Crtc>, modes: seq<Mode>, prefix: Assignment, c: nat, before: nat,
                    after: nat)
    requires |prefix| < |outs| && c < |outs[|prefix|].info.crtcs| && before <= after
    requires Explored(outs, crtcs, modes, prefix, c, before)
    requires ChoiceBounded(outs, crtcs, modes, prefix, FindCrtc(crtcs, outs[|prefix|].info.crtcs[c]), after)
    ensures Explored(outs, crtcs, modes, prefix, c + 1, after)
  {
    var list := outs[|prefix|].info.crtcs;
    forall e | 0 <= e < c + 1 && e < |list|
      ensures ChoiceBounded(outs, crtcs, modes, prefix, FindCrtc(crtcs, list[e]), after)
    {
      if e < c {
        assert ChoiceBounded(outs, crtcs, modes, prefix, FindCrtc(crtcs, list[e]), before);
      }
    }
  }

  // ---- What the best score means ----

  function Assigned(a: Assignment, k: nat): nat
    requires k <= |a|
    decreases |a| - k
  {
    if k == |a| then 0 else (if a[k].Some? then 1 else 0) + Assigned(a, k + 1)
  }

  /** How many outputs keep the CRTC they had before the search. */
  function Kept(outs: seq<Output>, a: Assignment, k: nat): nat
    requires |a| == |outs| && k <= |a|
    decreases |a| - k
  {
    if k == |a| then 0
    else (if a[k].Some? && a[k] == outs[k].currentCrtc then 1 else 0) + Kept(outs, a, k + 1)
  }

  lemma {:induction false} ScoreIsWeighted(outs: seq<Output>, a: Assignment, k: nat)
    requires |a| == |outs| && k <= |a|
    ensures Score(outs, a, k) == 1000 * Assigned(a, k) + Kept(outs, a, k)
    ensures Kept(outs, a, k) <= Assigned(a, k) <= |a| - k
    decreases |a| - k
  {
    if k < |a| {
      ScoreIsWeighted(outs, a, k + 1);
    }
  }

  /** With at most 1000 outputs the best score lights as many outputs as
      possible, and among those choices keeps the most current CRTCs. */
  lemma MostOutputsThenMostKept(outs: seq<Output>, crtcs: seq<Crtc>, modes: seq<Mode>, best: Assignment, score: nat,
                                a: Assignment)
    requires Optimal(outs, crtcs, modes, best, 0, score) && |outs| <= 1000
    requires Admissible(outs, crtcs, modes, a, 0)
    ensures Assigned(a, 0) <= Assigned(best, 0)
    ensures Assigned(a, 0) == Assigned(best, 0) ==> Kept(outs, a, 0) <= Kept(outs, best, 0)
    ensures |GivenTo(a, 0)| <= |GivenTo(best, 0)|
    ensures |GivenTo(a, 0)| == |GivenTo(best, 0)| ==> |Keeping(outs, a, 0)| <= |Keeping(outs, best, 0)|
  {
    ScoreCounts(outs, a, 0);
    ScoreCounts(outs, best, 0);
    assert a[..0] == best[..0];
    ScoreIsWeighted(outs, a, 0);
    ScoreIsWeighted(outs, best, 0);
  }

  /** The outputs from `k` on that get a CRTC, and those of them that keep theirs. */
  ghost function GivenTo(a: Assignment, k: nat): set<nat> {
    set i: nat | k <= i < |a| && a[i].Some?
  }

  ghost function Keeping(outs: seq<Output>, a: Assignment, k: nat): set<nat>
    requires |a| == |outs|
  {
    set i: nat | k <= i < |a| && a[i].Some? && a[i] == outs[i].currentCrtc
  }

  lemma {:induction false} AssignedCounts(a: Assignment, k: nat)
    requires k <= |a|
    ensures Assigned(a, k) == |GivenTo(a, k)|
    decreases |a| - k
  {
    if k == |a| {
      assert GivenTo(a, k) == {};
    } else {
      AssignedCounts(a, k + 1);
      var given := GivenTo(a, k + 1);
      assert GivenTo(a, k) == if a[k].Some? then given + {k} else given;
    }
  }

  lemma {:induction false} KeptCounts(outs: seq<Output>, a: Assignment, k: nat)
    requires |a| == |outs| && k <= |a|
    ensures Kept(outs, a, k) == |Keeping(outs, a, k)|
    decreases |a| - k
  {
    if k == |a| {
      assert Keeping(outs, a, k) == {};
    } else {
      KeptCounts(outs, a, k + 1);
      var keeping := Keeping(outs, a, k + 1);
      assert Keeping(outs, a, k) == if a[k].Some? && a[k] == outs[k].currentCrtc then keeping + {k} else keeping;
    }
  }

  /** A thousand points for every output that gets a CRTC, and one more where it keeps its own. */
  lemma ScoreCounts(outs: seq<Output>, a: Assignment, k: nat)
    requires |a| == |outs| && k <= |a|
    ensures Assigned(a, k) == |GivenTo(a, k)| && Kept(outs, a, k) == |Keeping(outs, a, k)|
    ensures Score(outs, a, k) == 1000 * |GivenTo(a, k)| + |Keeping(outs, a, k)|
  {
    AssignedCounts(a, k);
    KeptCounts(outs, a, k);
    ScoreIsWeighted(outs, a, k);
  }

  /** Every lit output has a CRTC. */
  ghost predicate Complete(outs: seq<Output>, a: Assignment)
    requires |a| == |outs|
  {
    forall i | 0 <= i < |outs| && Lit(outs[i]) :: a[i].Some?
  }

  function LitCount(outs: seq<Output>, k: nat): nat
    requires k <= |outs|
    decreases |outs| - k
  {
    if k == |outs| then 0 else (if Lit(outs[k]) then 1 else 0) + LitCount(outs, k + 1)
  }

  lemma {:induction false} CompleteIsFull(outs: seq<Output>, a: Assignment, k: nat)
    requires |a| == |outs| && k <= |a|
    requires forall i | k <= i < |a| && a[i].Some? :: Lit(outs[i])
    ensures Assigned(a, k) <= LitCount(outs, k)
    ensures Assigned(a, k) == LitCount(outs, k) <==> forall i | k <= i < |outs| && Lit(outs[i]) :: a[i].Some?
    decreases |a| - k
  {
    if k < |a| {
      CompleteIsFull(outs, a, k + 1);
    }
  }

  /** The search lights every lit output whenever that is possible at all. */
  lemma CompleteIfPossible(outs: seq<Output>, crtcs: seq<Crtc>, modes: seq<Mode>, best: Assignment, score: nat,
                           a: Assignment)
    requires Optimal(outs, crtcs, modes, best, 0, score) && |outs| <= 1000
    requires Admissible(outs, crtcs, modes, a, 0) && Complete(outs, a)
    ensures Complete(outs, best)
  {
    MostOutputsThenMostKept(outs, crtcs, modes, best, score, a);
    forall i | 0 <= i < |outs|
      ensures a[i].Some? ==> Lit(outs[i])
      ensures best[i].Some? ==> Lit(outs[i])
    {
      assert Allowed(outs, crtcs, modes, a, i) && Allowed(outs, crtcs, modes, best, i);
    }
    CompleteIsFull(outs, a, 0);
    CompleteIsFull(outs, best, 0);
  }

  ghost predicate SameShow(o: Output, p: Output) {
    o.mode == p.mode && o.x == p.x && o.y == p.y && o.rotation == p.rotation
  }

  /** Outputs that share a CRTC which was in use want the same mode, place and rotation. */
  lemma BusyCrtcIsShared(outs: seq<Output>, crtcs: seq<Crtc>, modes: seq<Mode>, a: Assignment, i: nat, j: nat, c: nat)
    requires Admissible(outs, crtcs, modes, a, 0) && i < |outs| && j < |outs|
    requires a[i] == Some(c) && a[j] == Some(c)
    requires c < |crtcs| && |crtcs[c].info.outputs| > 0
    ensures SameShow(outs[i], outs[j])
  {
    assert Allowed(outs, crtcs, modes, a, i) && Allowed(outs, crtcs, modes, a, j);
  }

  /** On a CRTC that was idle nothing compares them: two outputs that may clone
      each other and can use only this CRTC both get it, whatever they want to show. */
  lemma IdleCrtcIsShared(o: Output, p: Output, crtc: Crtc, modes: seq<Mode>, best: Assignment, score: nat)
    requires Lit(o) && Lit(p) && o.info.crtcs == [crtc.xid] && p.info.crtcs == [crtc.xid]
    requires o.xid in p.info.clones
    requires crtc.outputs == [] && crtc.info.outputs == []
    requires Optimal([o, p], [crtc], modes, best, 0, score)
    ensures best == [Some(0), Some(0)]
  {
    var outs, crtcs := [o, p], [crtc];
    var both: Assignment := [Some(0), Some(0)];
    assert FindCrtc(crtcs, crtc.xid) == Some(0);
    assert Allowed(outs, crtcs, modes, both, 0) && Allowed(outs, crtcs, modes, both, 1);
    assert Allowed(outs, crtcs, modes, best, 0) && Allowed(outs, crtcs, modes, best, 1);
    MostOutputsThenMostKept(outs, crtcs, modes, best, score, both);
    assert Assigned(both, 2) == 0 && Assigned(both, 1) == 1 && Assigned(both, 0) == 2;
    assert Assigned(best, 2) == 0;
  }
}
