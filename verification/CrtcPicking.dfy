/** Assigning CRTCs to outputs, by a quick way or by the search: `find_crtc_for_output`, `pick_crtcs`. */
module CrtcPicking {
  import opened Basics
  import opened Geometry
  import opened Displays
  import opened CrtcSearch

  /** The first output with the given id. */
  function FindXid(outs: seq<Output>, xid: nat, from: nat := 0): (r: Option<nat>)
    requires from <= |outs|
    ensures r.Some? ==> from <= r.value < |outs| && outs[r.value].xid == xid
    ensures r.Some? ==> forall j | from <= j < r.value :: outs[j].xid != xid
    ensures r.None? ==> forall j | from <= j < |outs| :: outs[j].xid != xid
    decreases |outs| - from
  {
    if from == |outs| then None
    else if outs[from].xid == xid then Some(from)
    else FindXid(outs, xid, from + 1)
  }

  datatype Found = Unknown | NoneSuits | Use(c: nat)

  /** The first entry of the CRTC list of output `i`, from `e` on, that suits. */
  function FirstSuiting(outs: seq<Output>, crtcs: seq<Crtc>, modes: seq<Mode>, i: nat, e: nat := 0): (r: Found)
    requires i < |outs| && e <= |outs[i].info.crtcs|
    ensures r.Use? ==> r.c < |crtcs| && Suits(outs, crtcs, modes, r.c, i)
    ensures r.Use? ==> exists f :: e <= f < |outs[i].info.crtcs| && FindCrtc(crtcs, outs[i].info.crtcs[f]) == Some(r.c)
                                   && forall g | e <= g < f :: Unsuitable(outs, crtcs, modes, i, outs[i].info.crtcs[g])
    ensures r.NoneSuits? ==>
              forall f | e <= f < |outs[i].info.crtcs| :: Unsuitable(outs, crtcs, modes, i, outs[i].info.crtcs[f])
    ensures r.Unknown? ==> exists x :: x in outs[i].info.crtcs && FindCrtc(crtcs, x).None?
    decreases |outs[i].info.crtcs| - e
  {
    var list := outs[i].info.crtcs;
    if e == |list| then NoneSuits
    else
      match FindCrtc(crtcs, list[e])
      case None => Unknown
      case Some(c) => if Suits(outs, crtcs, modes, c, i) then Use(c) else FirstSuiting(outs, crtcs, modes, i, e + 1)
  }

  /** The CRTC `x` is known, and does not suit output `i`. */
  predicate Unsuitable(outs: seq<Output>, crtcs: seq<Crtc>, modes: seq<Mode>, i: nat, x: nat)
    requires i < |outs|
  {
    FindCrtc(crtcs, x).Some? && !Suits(outs, crtcs, modes, FindCrtc(crtcs, x).value, i)
  }

  method FindCrtcForOutput(d: Display, modes: seq<Mode>, i: nat) returns (r: Found)
    requires i < d.outputs.Length
    ensures r == FirstSuiting(d.outputs[..], d.crtcs[..], modes, i)
  {
    var list := d.outputs[i].info.crtcs;
    var c := 0;
    while c < |list|
      invariant 0 <= c <= |list|
      invariant FirstSuiting(d.outputs[..], d.crtcs[..], modes, i)
                == FirstSuiting(d.outputs[..], d.crtcs[..], modes, i, c)
    {
      var crtc := FindCrtc(d.crtcs[..], list[c]);
      if crtc.None? {
        return Unknown;
      }
      var suits := CheckCrtcForOutput(d, modes, crtc.value, i);
      if suits {
        return Use(crtc.value);
      }
      c := c + 1;
    }
    r := NoneSuits;
  }

  /** What loading the outputs from the server guarantees. */
  ghost predicate Assignable(o: Output, crtcs: seq<Crtc>) {
    && (o.crtc.Some? ==> Listed(o, crtcs, o.crtc.value))
    && (Lit(o) && o.changes == {} ==> o.crtc.Some?)
  }

  /** The output was reassigned, if at all, with a mark on it. */
  ghost predicate Repicked(a: Output, b: Output) {
    && b == a.(crtc := b.crtc, currentCrtc := b.currentCrtc, changes := b.changes)
    && (b.changes == a.changes || b.changes == a.changes + {ChangeCrtc})
    && (b.changes == {} ==> b.crtc == a.crtc)
  }

  /** Another output still uses the CRTC that output `i` is to get. */
  predicate TakenByOther(outs: seq<Output>, crtcs: seq<Crtc>, c: nat, i: nat)
    requires c < |crtcs|
  {
    var users := crtcs[c].info.outputs;
    |users| > 0 && (|users| > 1 || FindXid(outs, users[0]) != Some(i))
  }

  ghost predicate AllAssignable(outs: seq<Output>, crtcs: seq<Crtc>) {
    forall i | 0 <= i < |outs| :: Assignable(outs[i], crtcs)
  }

  /** How the quick way ends: with the list it leaves, whether it found all CRTCs
      known, and whether every changed lit output got one. */
  datatype Match = Match(outs: seq<Output>, ok: bool, happy: bool)

  /** What the quick way does about one output: nothing, or give it a CRTC, or stop the whole. */
  datatype Step = Skip | Give(c: nat) | Stop(known: bool)

  function StepOf(outs: seq<Output>, crtcs: seq<Crtc>, modes: seq<Mode>, i: nat): Step
    requires i < |outs|
  {
    if outs[i].changes == {} || outs[i].mode.None? then Skip
    else if outs[i].crtc.Some? then
      if outs[i].crtc.value < |crtcs| && TakenByOther(outs, crtcs, outs[i].crtc.value, i) then Stop(true) else Skip
    else
      match FirstSuiting(outs, crtcs, modes, i)
      case Unknown => Stop(false)
      case NoneSuits => Stop(true)
      case Use(c) => Give(c)
  }

  function Given(outs: seq<Output>, i: nat, c: nat): seq<Output>
    requires i < |outs|
  {
    outs[i := outs[i].(crtc := Some(c))]
  }

  lemma GivingKeeps(outs: seq<Output>, crtcs: seq<Crtc>, modes: seq<Mode>, i: nat, c: nat)
    requires i < |outs| && AllAssignable(outs, crtcs) && c < |crtcs| && Suits(outs, crtcs, modes, c, i)
    ensures AllAssignable(Given(outs, i, c), crtcs) && OnlyReassigned(outs, Given(outs, i, c), 0)
  {
    var next := Given(outs, i, c);
    forall k | 0 <= k < |next| ensures Assignable(next[k], crtcs) {
      assert Assignable(outs[k], crtcs);
    }
  }

  /** The list after the step about output `i`. */
  function AfterStep(outs: seq<Output>, crtcs: seq<Crtc>, modes: seq<Mode>, i: nat): (r: seq<Output>)
    requires i < |outs|
    ensures |r| == |outs|
  {
    match StepOf(outs, crtcs, modes, i)
    case Give(c) => Given(outs, i, c)
    case _ => outs
  }

  /** What is known about one step. */
  lemma StepFacts(outs: seq<Output>, crtcs: seq<Crtc>, modes: seq<Mode>, i: nat)
    requires i < |outs| && AllAssignable(outs, crtcs)
    ensures var step, next := StepOf(outs, crtcs, modes, i), AfterStep(outs, crtcs, modes, i);
            && AllAssignable(next, crtcs) && OnlyReassigned(outs, next, 0)
            && (step.Give? ==> step.c < |crtcs| && Suits(outs, crtcs, modes, step.c, i))
            && (forall k | 0 <= k < |outs| && (k != i || outs[k].changes == {}) :: next[k] == outs[k])
            && (!step.Stop? && Lit(outs[i]) ==> next[i].crtc.Some?)
            && (step == Stop(false) ==> UnknownCrtc(outs, crtcs, 0))
  {
    var step := StepOf(outs, crtcs, modes, i);
    assert Assignable(outs[i], crtcs);
    if step.Give? {
      GivingKeeps(outs, crtcs, modes, i, step.c);
    }
  }

  /** The quick way from output `i` on. */
  function QuickMatch(outs: seq<Output>, crtcs: seq<Crtc>, modes: seq<Mode>, i: nat := 0): Match
    requires i <= |outs|
    decreases |outs| - i
  {
    if i == |outs| then Match(outs, true, true)
    else
      var step := StepOf(outs, crtcs, modes, i);
      if step.Stop? then Match(outs, step.known, false)
      else QuickMatch(AfterStep(outs, crtcs, modes, i), crtcs, modes, i + 1)
  }

  method MatchOne(d: Display, modes: seq<Mode>, i: nat) returns (r: Step)
    requires i < d.outputs.Length && AllAssignable(d.outputs[..], d.crtcs[..])
    modifies d.outputs
    ensures r == StepOf(old(d.outputs[..]), d.crtcs[..], modes, i)
    ensures d.outputs[..] == AfterStep(old(d.outputs[..]), d.crtcs[..], modes, i)
  {
    var output := d.outputs[i];
    if output.changes == {} || output.mode.None? {
      return Skip;
    }
    if output.crtc.Some? {
      assert Assignable(output, d.crtcs[..]);
      if TakenByOther(d.outputs[..], d.crtcs[..], output.crtc.value, i) {
        return Stop(true);
      }
      return Skip;
    }
    var found := FindCrtcForOutput(d, modes, i);
    match found {
      case Unknown =>
        r := Stop(false);
      case NoneSuits =>
        r := Stop(true);
      case Use(c) =>
        d.outputs[i] := output.(crtc := Some(c));
        r := Give(c);
    }
  }

  // ---- What the quick way does, in other words ----

  /** No output but `i` was on the CRTC before. */
  ghost predicate AloneOn(outs: seq<Output>, crtc: Crtc, i: nat)
    requires i < |outs|
  {
    && |crtc.info.outputs| <= 1
    && forall u | u in crtc.info.outputs :: u == outs[i].xid && forall j | 0 <= j < i :: outs[j].xid != u
  }

  /** Entry `e` of its list is the first CRTC that suits output `i`, and the entries before it are known. */
  ghost predicate TakesEntry(outs: seq<Output>, crtcs: seq<Crtc>, modes: seq<Mode>, i: nat, e: nat)
    requires i < |outs|
  {
    && e < |outs[i].info.crtcs| && FindCrtc(crtcs, outs[i].info.crtcs[e]).Some?
    && Suits(outs, crtcs, modes, FindCrtc(crtcs, outs[i].info.crtcs[e]).value, i)
    && forall f | 0 <= f < e :: Unsuitable(outs, crtcs, modes, i, outs[i].info.crtcs[f])
  }

  /** A changed lit output has to be served. */
  predicate Waits(o: Output) {
    Lit(o) && o.changes != {}
  }

  /** Output `i` is served as `now`: it stays on its CRTC, where it has to be alone, or takes
      the first that suits. */
  ghost predicate Served(outs: seq<Output>, crtcs: seq<Crtc>, modes: seq<Mode>, i: nat, now: Output)
    requires i < |outs|
  {
    if !Waits(outs[i]) then now == outs[i]
    else if outs[i].crtc.Some? then
      now == outs[i] && outs[i].crtc.value < |crtcs| && AloneOn(outs, crtcs[outs[i].crtc.value], i)
    else
      exists e: nat :: TakesEntry(outs, crtcs, modes, i, e)
                       && now == outs[i].(crtc := FindCrtc(crtcs, outs[i].info.crtcs[e]))
  }

  /** The list when the outputs before `i` are served. */
  function Between(start: seq<Output>, now: seq<Output>, i: nat): (r: seq<Output>)
    requires i <= |start| == |now|
    ensures |r| == |start|
  {
    now[..i] + start[i..]
  }

  /** The first `n` outputs were served in turn, and the others left alone. */
  ghost predicate ServedUpTo(start: seq<Output>, now: seq<Output>, crtcs: seq<Crtc>, modes: seq<Mode>, n: nat) {
    && |now| == |start| && n <= |start| && (forall i | n <= i < |start| :: now[i] == start[i])
    && forall i | 0 <= i < n :: ServedAt(start, now, crtcs, modes, i)
  }

  ghost predicate ServedAt(start: seq<Output>, now: seq<Output>, crtcs: seq<Crtc>, modes: seq<Mode>, i: nat)
    requires i < |start| == |now|
  {
    Served(Between(start, now, i), crtcs, modes, i, now[i])
  }

  /** Output `i` has to be served and is not alone on its CRTC, or finds none. */
  ghost predicate Unserved(outs: seq<Output>, crtcs: seq<Crtc>, modes: seq<Mode>, i: nat)
    requires i < |outs|
  {
    && Waits(outs[i])
    && match outs[i].crtc
       case Some(c) => c < |crtcs| && !AloneOn(outs, crtcs[c], i)
       case None => forall e :: !TakesEntry(outs, crtcs, modes, i, e)
  }

  /** Every output can be served in turn. */
  ghost predicate AllServable(start: seq<Output>, crtcs: seq<Crtc>, modes: seq<Mode>) {
    exists now :: ServedUpTo(start, now, crtcs, modes, |start|)
  }

  /** The quick way stopped at some output, which cannot be served. */
  ghost predicate StoppedAt(start: seq<Output>, now: seq<Output>, crtcs: seq<Crtc>, modes: seq<Mode>, n: nat) {
    n < |start| && ServedUpTo(start, now, crtcs, modes, n) && Unserved(now, crtcs, modes, n)
  }

  lemma AloneIsNotTaken(outs: seq<Output>, crtcs: seq<Crtc>, c: nat, i: nat)
    requires i < |outs| && c < |crtcs|
    ensures TakenByOther(outs, crtcs, c, i) <==> !AloneOn(outs, crtcs[c], i)
  {
    var users := crtcs[c].info.outputs;
    if |users| == 1 {
      assert users[0] in users;
    }
  }

  /** What the step about an output means. */
  lemma StepServes(outs: seq<Output>, crtcs: seq<Crtc>, modes: seq<Mode>, i: nat)
    requires i < |outs| && AllAssignable(outs, crtcs)
    ensures if StepOf(outs, crtcs, modes, i).Stop? then Unserved(outs, crtcs, modes, i)
            else Served(outs, crtcs, modes, i, AfterStep(outs, crtcs, modes, i)[i])
  {
    assert Assignable(outs[i], crtcs);
    if Waits(outs[i]) {
      if outs[i].crtc.Some? {
        AloneIsNotTaken(outs, crtcs, outs[i].crtc.value, i);
      } else {
        FirstIsTaken(outs, crtcs, modes, i);
      }
    }
  }

  lemma FirstIsTaken(outs: seq<Output>, crtcs: seq<Crtc>, modes: seq<Mode>, i: nat)
    requires i < |outs|
    ensures var found := FirstSuiting(outs, crtcs, modes, i);
            if found.Use? then
              exists e: nat :: TakesEntry(outs, crtcs, modes, i, e)
                               && FindCrtc(crtcs, outs[i].info.crtcs[e]) == Some(found.c)
            else
              forall e :: !TakesEntry(outs, crtcs, modes, i, e)
  {
    var found, list := FirstSuiting(outs, crtcs, modes, i), outs[i].info.crtcs;
    if found.Use? {
      var f :| 0 <= f < |list| && FindCrtc(crtcs, list[f]) == Some(found.c)
               && forall g | 0 <= g < f :: Unsuitable(outs, crtcs, modes, i, list[g]);
      assert TakesEntry(outs, crtcs, modes, i, f);
    } else if found.Unknown? {
      UnknownComesFirst(outs, crtcs, modes, i, 0);
    }
  }

  lemma {:induction false} UnknownComesFirst(outs: seq<Output>, crtcs: seq<Crtc>, modes: seq<Mode>, i: nat, e: nat)
    requires i < |outs| && e <= |outs[i].info.crtcs| && FirstSuiting(outs, crtcs, modes, i, e).Unknown?
    ensures forall f | e <= f < |outs[i].info.crtcs| && FindCrtc(crtcs, outs[i].info.crtcs[f]).Some? ::
              || !Suits(outs, crtcs, modes, FindCrtc(crtcs, outs[i].info.crtcs[f]).value, i)
              || exists g :: e <= g < f && FindCrtc(crtcs, outs[i].info.crtcs[g]).None?
    decreases |outs[i].info.crtcs| - e
  {
    if FindCrtc(crtcs, outs[i].info.crtcs[e]).Some? {
      UnknownComesFirst(outs, crtcs, modes, i, e + 1);
    }
  }

  /** From a list whose first outputs are served the quick way serves the others, or stops. */
  lemma {:induction false} QuickMatchServes(start: seq<Output>, now: seq<Output>, crtcs: seq<Crtc>, modes: seq<Mode>,
                                            n: nat)
    requires ServedUpTo(start, now, crtcs, modes, n) && AllAssignable(now, crtcs)
    ensures var m := QuickMatch(now, crtcs, modes, n);
            if m.happy then ServedUpTo(start, m.outs, crtcs, modes, |start|)
            else exists k :: StoppedAt(start, m.outs, crtcs, modes, k)
    decreases |start| - n
  {
    assert Between(start, now, n) == now;
    if n < |start| {
      StepServes(now, crtcs, modes, n);
      if StepOf(now, crtcs, modes, n).Stop? {
        assert StoppedAt(start, now, crtcs, modes, n);
      } else {
        var next := AfterStep(now, crtcs, modes, n);
        StepFacts(now, crtcs, modes, n);
        OneMoreServed(start, now, next, crtcs, modes, n);
        QuickMatchServes(start, next, crtcs, modes, n + 1);
      }
    }
  }

  lemma OneMoreServed(start: seq<Output>, now: seq<Output>, next: seq<Output>, crtcs: seq<Crtc>, modes: seq<Mode>,
                      n: nat)
    requires ServedUpTo(start, now, crtcs, modes, n) && n < |start| == |next|
    requires (forall k | 0 <= k < |next| && k != n :: next[k] == now[k]) && Served(now, crtcs, modes, n, next[n])
    ensures ServedUpTo(start, next, crtcs, modes, n + 1)
  {
    forall i | 0 <= i <= n ensures ServedAt(start, next, crtcs, modes, i) {
      assert Between(start, next, i) == Between(start, now, i);
      if i < n {
        assert ServedAt(start, now, crtcs, modes, i);
      } else {
        assert Between(start, now, i) == now;
      }
    }
  }

  /** There is one way to be served. */
  lemma {:induction false} ServedAlike(start: seq<Output>, a: seq<Output>, b: seq<Output>, crtcs: seq<Crtc>,
                                       modes: seq<Mode>, m: nat, n: nat, i: nat)
    requires ServedUpTo(start, a, crtcs, modes, m) && ServedUpTo(start, b, crtcs, modes, n) && i <= m && i <= n
    ensures a[..i] == b[..i]
  {
    if i > 0 {
      ServedAlike(start, a, b, crtcs, modes, m, n, i - 1);
      assert Between(start, a, i - 1) == Between(start, b, i - 1);
      assert ServedAt(start, a, crtcs, modes, i - 1) && ServedAt(start, b, crtcs, modes, i - 1);
      ServedOneWay(Between(start, a, i - 1), crtcs, modes, i - 1, a[i - 1], b[i - 1]);
    }
  }

  lemma ServedOneWay(outs: seq<Output>, crtcs: seq<Crtc>, modes: seq<Mode>, i: nat, a: Output, b: Output)
    requires i < |outs| && Served(outs, crtcs, modes, i, a) && Served(outs, crtcs, modes, i, b)
    ensures a == b && !Unserved(outs, crtcs, modes, i)
  {
    if Waits(outs[i]) && outs[i].crtc.None? {
      var e: nat :| TakesEntry(outs, crtcs, modes, i, e)
                    && a == outs[i].(crtc := FindCrtc(crtcs, outs[i].info.crtcs[e]));
      var f: nat :| TakesEntry(outs, crtcs, modes, i, f)
                    && b == outs[i].(crtc := FindCrtc(crtcs, outs[i].info.crtcs[f]));
      assert !(e < f) && !(f < e);
    }
  }

  /** The quick way is content exactly if every output can be served in turn. */
  lemma ContentIfServable(start: seq<Output>, crtcs: seq<Crtc>, modes: seq<Mode>)
    requires AllAssignable(start, crtcs)
    ensures var m := QuickMatch(start, crtcs, modes);
            && (m.happy <==> AllServable(start, crtcs, modes))
            && if m.happy then ServedUpTo(start, m.outs, crtcs, modes, |start|)
               else exists k :: StoppedAt(start, m.outs, crtcs, modes, k)
  {
    var m := QuickMatch(start, crtcs, modes);
    QuickMatchServes(start, start, crtcs, modes, 0);
    if now :| ServedUpTo(start, now, crtcs, modes, |start|) {
      if !m.happy {
        var k :| StoppedAt(start, m.outs, crtcs, modes, k);
        ServedAlike(start, now, m.outs, crtcs, modes, |start|, k, k);
        assert Between(start, now, k) == Between(start, m.outs, k) == m.outs;
        assert ServedAt(start, now, crtcs, modes, k);
        ServedOneWay(m.outs, crtcs, modes, k, now[k], now[k]);
      }
    }
  }

  /** The quick way: `happy` means that every changed lit output is served. */
  method MatchSpareCrtcs(d: Display, modes: seq<Mode>) returns (ok: bool, happy: bool)
    requires AllAssignable(d.outputs[..], d.crtcs[..])
    modifies d.outputs
    ensures Match(d.outputs[..], ok, happy) == QuickMatch(old(d.outputs[..]), d.crtcs[..], modes)
    ensures happy <==> AllServable(old(d.outputs[..]), d.crtcs[..], modes)
    ensures if happy then ServedUpTo(old(d.outputs[..]), d.outputs[..], d.crtcs[..], modes, d.outputs.Length)
            else exists k :: StoppedAt(old(d.outputs[..]), d.outputs[..], d.crtcs[..], modes, k)
    ensures happy ==> ok
  {
    ContentIfServable(d.outputs[..], d.crtcs[..], modes);
    QuickMatchKeeps(d.outputs[..], d.crtcs[..], modes, 0);
    ghost var start := d.outputs[..];
    var i := 0;
    while i < d.outputs.Length
      invariant 0 <= i <= d.outputs.Length
      invariant AllAssignable(d.outputs[..], d.crtcs[..])
      invariant QuickMatch(start, d.crtcs[..], modes) == QuickMatch(d.outputs[..], d.crtcs[..], modes, i)
    {
      StepFacts(d.outputs[..], d.crtcs[..], modes, i);
      var step := MatchOne(d, modes, i);
      if step.Stop? {
        return step.known, false;
      }
      i := i + 1;
    }
    ok, happy := true, true;
  }

  /** Only assignments change, and only of marked outputs from `i` on; and if the quick
      way is content, each lit one of them has a CRTC. */
  ghost predicate Keeps(outs: seq<Output>, crtcs: seq<Crtc>, i: nat, m: Match) {
    && OnlyReassigned(outs, m.outs, 0) && AllAssignable(m.outs, crtcs)
    && (forall k | 0 <= k < |outs| && (k < i || outs[k].changes == {}) :: m.outs[k].crtc == outs[k].crtc)
    && (!m.ok ==> UnknownCrtc(outs, crtcs, 0))
    && (m.happy ==> m.ok && forall k | i <= k < |outs| && Lit(outs[k]) :: m.outs[k].crtc.Some?)
  }

  lemma {:induction false} QuickMatchKeeps(outs: seq<Output>, crtcs: seq<Crtc>, modes: seq<Mode>, i: nat)
    requires i <= |outs| && AllAssignable(outs, crtcs)
    ensures Keeps(outs, crtcs, i, QuickMatch(outs, crtcs, modes, i))
    decreases |outs| - i
  {
    if i < |outs| {
      StepFacts(outs, crtcs, modes, i);
      if !StepOf(outs, crtcs, modes, i).Stop? {
        var next := AfterStep(outs, crtcs, modes, i);
        QuickMatchKeeps(next, crtcs, modes, i + 1);
        KeepsBefore(outs, next, crtcs, modes, i, QuickMatch(next, crtcs, modes, i + 1));
      }
    }
  }

  lemma KeepsBefore(outs: seq<Output>, next: seq<Output>, crtcs: seq<Crtc>, modes: seq<Mode>, i: nat, m: Match)
    requires i < |outs| && AllAssignable(outs, crtcs)
    requires !StepOf(outs, crtcs, modes, i).Stop? && next == AfterStep(outs, crtcs, modes, i)
    requires Keeps(next, crtcs, i + 1, m)
    ensures Keeps(outs, crtcs, i, m)
  {
    StepFacts(outs, crtcs, modes, i);
    OnlyReassignedTransitive(outs, next, m.outs, 0);
    ReassigningKeepsUnknown(outs, next, crtcs, 0);
    forall k | 0 <= k < |outs| && (k < i || outs[k].changes == {}) ensures m.outs[k].crtc == outs[k].crtc {
      assert next[k] == outs[k];
    }
    assert m.outs[i].crtc == next[i].crtc;
  }

  /** The list differs from `a` at most in its assignments, its noted old assignments and a
      mark for those that moved. */
  ghost predicate OnlyRepicked(a: seq<Output>, b: seq<Output>) {
    |a| == |b| && forall i | 0 <= i < |a| :: Repicked(a[i], b[i])
  }

  function Noted(outs: seq<Output>): (r: seq<Output>)
    ensures |r| == |outs|
  {
    seq(|outs|, i requires 0 <= i < |outs| => outs[i].(currentCrtc := outs[i].crtc))
  }

  method NoteCurrent(outputs: array<Output>)
    modifies outputs
    ensures outputs[..] == Noted(old(outputs[..]))
  {
    ghost var start := outputs[..];
    var i := 0;
    while i < outputs.Length
      invariant 0 <= i <= outputs.Length
      invariant forall j | 0 <= j < i :: outputs[j] == Noted(start)[j]
      invariant forall j | i <= j < outputs.Length :: outputs[j] == start[j]
    {
      outputs[i] := outputs[i].(currentCrtc := outputs[i].crtc);
      i := i + 1;
    }
  }

  /** Checks that every lit output got a CRTC, and marks the outputs that moved. */
  method MarkMoved(outputs: array<Output>) returns (ok: bool)
    modifies outputs
    ensures ok <==> Complete(old(outputs[..]), AssignmentOf(old(outputs[..])))
    ensures ok ==>
              forall i | 0 <= i < outputs.Length ::
                (var o := old(outputs[..])[i];
                 outputs[i] == if o.changes == {} && o.crtc != o.currentCrtc then o.(changes := {ChangeCrtc}) else o)
  {
    ghost var start := outputs[..];
    var i := 0;
    while i < outputs.Length
      invariant 0 <= i <= outputs.Length
      invariant forall j | 0 <= j < i && Lit(start[j]) :: start[j].crtc.Some?
      invariant forall j | 0 <= j < i ::
                  outputs[j] == if start[j].changes == {} && start[j].crtc != start[j].currentCrtc
                                then start[j].(changes := {ChangeCrtc}) else start[j]
      invariant forall j | i <= j < outputs.Length :: outputs[j] == start[j]
    {
      var output := outputs[i];
      if output.mode.Some? && output.crtc.None? {
        assert AssignmentOf(start)[i].None?;
        return false;
      }
      if output.changes == {} && output.crtc != output.currentCrtc {
        outputs[i] := output.(changes := output.changes + {ChangeCrtc});
      }
      i := i + 1;
    }
    ok := true;
  }

  /** Which assignments are admissible depends on neither the assignments nor the noted ones. */
  lemma NotesKeepAdmissible(a: seq<Output>, b: seq<Output>, crtcs: seq<Crtc>, modes: seq<Mode>, asg: Assignment)
    requires |a| == |b| && forall i | 0 <= i < |a| :: b[i] == a[i].(crtc := b[i].crtc, currentCrtc := b[i].currentCrtc)
    requires Admissible(a, crtcs, modes, asg, 0)
    ensures Admissible(b, crtcs, modes, asg, 0)
    ensures Complete(a, asg) ==> Complete(b, asg)
  {
    forall i | 0 <= i < |b| ensures Allowed(b, crtcs, modes, asg, i) {
      assert Allowed(a, crtcs, modes, asg, i);
    }
  }

  /** Why the whole of `pick_crtcs` may stop with an error. */
  ghost predicate CannotPick(outs: seq<Output>, crtcs: seq<Crtc>, modes: seq<Mode>) {
    || UnknownCrtc(outs, crtcs, 0)
    || forall a: Assignment | Admissible(outs, crtcs, modes, a, 0) :: !Complete(outs, a)
  }

  /** The search was run on the list `noted` and left the assignments in `now`. */
  ghost predicate Searched(noted: seq<Output>, crtcs: seq<Crtc>, modes: seq<Mode>, now: seq<Output>) {
    && |now| == |noted| && Complete(noted, AssignmentOf(now))
    && exists score :: Optimal(noted, crtcs, modes, AssignmentOf(now), 0, score)
  }

  /** What `pick_crtcs` leaves behind: the quick way's list, or the best assignment for it. */
  ghost predicate Picked(start: seq<Output>, crtcs: seq<Crtc>, modes: seq<Mode>, now: seq<Output>) {
    && AllAssignable(start, crtcs)
    && var m := QuickMatch(start, crtcs, modes);
       m.ok && if m.happy then now == m.outs else OnlyRepicked(start, now) && Searched(Noted(m.outs), crtcs, modes, now)
  }

  /** The search, when the quick way does not do; false stands for the program stopping with an error. */
  method SearchCrtcs(d: Display, modes: seq<Mode>) returns (ok: bool)
    modifies d.outputs
    ensures ok ==> Searched(Noted(old(d.outputs[..])), d.crtcs[..], modes, d.outputs[..])
    ensures ok ==> OnlyRepicked(old(d.outputs[..]), d.outputs[..])
    ensures !ok && d.outputs.Length <= 1000 ==> CannotPick(Noted(old(d.outputs[..])), d.crtcs[..], modes)
  {
    ghost var start, crtcs := d.outputs[..], d.crtcs[..];
    NoteCurrent(d.outputs);
    ghost var noted := d.outputs[..];
    var score := PickCrtcsScore(d, modes, 0);
    if score.None? {
      return false;
    }
    ghost var picked := d.outputs[..];
    ok := MarkMoved(d.outputs);
    if ok {
      assert AssignmentOf(d.outputs[..]) == AssignmentOf(picked);
      CompleteBack(noted, picked);
      forall i | 0 <= i < |start| ensures Repicked(start[i], d.outputs[i]) {
        assert noted[i] == start[i].(currentCrtc := start[i].crtc) && picked[i] == noted[i].(crtc := picked[i].crtc);
      }
    } else if d.outputs.Length <= 1000 {
      forall a: Assignment | Admissible(noted, crtcs, modes, a, 0) ensures !Complete(noted, a) {
        if Complete(noted, a) {
          CompleteIfPossible(noted, crtcs, modes, AssignmentOf(picked), score.value, a);
          CompleteStays(noted, picked);
        }
      }
    }
  }

  /** By the quick way exactly if every output can be served in turn; else by the search, from
      where the quick way stopped. */
  ghost predicate PickedEitherWay(start: seq<Output>, crtcs: seq<Crtc>, modes: seq<Mode>, now: seq<Output>) {
    if AllServable(start, crtcs, modes) then ServedUpTo(start, now, crtcs, modes, |start|)
    else
      exists stopped, k ::
        StoppedAt(start, stopped, crtcs, modes, k) && Searched(Noted(stopped), crtcs, modes, now)
  }

  lemma PickedMeans(start: seq<Output>, crtcs: seq<Crtc>, modes: seq<Mode>, now: seq<Output>)
    requires Picked(start, crtcs, modes, now)
    ensures PickedEitherWay(start, crtcs, modes, now)
  {
    ContentIfServable(start, crtcs, modes);
  }

  // False stands for the program stopping with an error.
  method PickCrtcs(d: Display, modes: seq<Mode>) returns (ok: bool)
    requires AllAssignable(d.outputs[..], d.crtcs[..])
    modifies d.outputs
    ensures ok ==> Picked(old(d.outputs[..]), d.crtcs[..], modes, d.outputs[..])
    ensures ok ==> PickedEitherWay(old(d.outputs[..]), d.crtcs[..], modes, d.outputs[..])
    ensures !ok && d.outputs.Length <= 1000 ==> CannotPick(old(d.outputs[..]), d.crtcs[..], modes)
  {
    ghost var start, crtcs := d.outputs[..], d.crtcs[..];
    QuickMatchKeeps(start, crtcs, modes, 0);
    var happy;
    ok, happy := MatchSpareCrtcs(d, modes);
    if !ok || happy {
      if happy {
        PickedMeans(start, crtcs, modes, d.outputs[..]);
      }
      return;
    }
    ghost var matched := d.outputs[..];
    ok := SearchCrtcs(d, modes);
    if ok {
      forall i | 0 <= i < |start| ensures Repicked(start[i], d.outputs[i]) {
        assert matched[i] == start[i].(crtc := matched[i].crtc) && Repicked(matched[i], d.outputs[i]);
      }
      PickedMeans(start, crtcs, modes, d.outputs[..]);
    } else if d.outputs.Length <= 1000 {
      CannotPickBefore(start, Noted(matched), crtcs, modes);
    }
  }

  lemma CannotPickBefore(a: seq<Output>, b: seq<Output>, crtcs: seq<Crtc>, modes: seq<Mode>)
    requires |a| == |b| && forall i | 0 <= i < |a| :: b[i] == a[i].(crtc := b[i].crtc, currentCrtc := b[i].currentCrtc)
    requires CannotPick(b, crtcs, modes)
    ensures CannotPick(a, crtcs, modes)
  {
    NotesKeepUnknown(a, b, crtcs);
    forall asg: Assignment | Admissible(a, crtcs, modes, asg, 0) ensures Complete(a, asg) ==> Complete(b, asg) {
      NotesKeepAdmissible(a, b, crtcs, modes, asg);
    }
    forall asg: Assignment | Admissible(a, crtcs, modes, asg, 0) ensures Admissible(b, crtcs, modes, asg, 0) {
      NotesKeepAdmissible(a, b, crtcs, modes, asg);
    }
  }

  /** By either way every lit output gets a CRTC of its own list, and an output
      without a mark keeps the one it had. */
  lemma PickedGivesAll(start: seq<Output>, crtcs: seq<Crtc>, modes: seq<Mode>, now: seq<Output>)
    requires Picked(start, crtcs, modes, now)
    ensures OnlyRepicked(start, now)
    ensures forall i | 0 <= i < |now| && Lit(now[i]) :: now[i].crtc.Some? && Listed(now[i], crtcs, now[i].crtc.value)
  {
    var m := QuickMatch(start, crtcs, modes);
    QuickMatchKeeps(start, crtcs, modes, 0);
    if m.happy {
      forall i | 0 <= i < |now| && Lit(now[i]) ensures Listed(now[i], crtcs, now[i].crtc.value) {
        assert Assignable(now[i], crtcs);
      }
    } else {
      var noted := Noted(m.outs);
      forall i | 0 <= i < |now| && Lit(now[i]) ensures now[i].crtc.Some? && Listed(now[i], crtcs, now[i].crtc.value) {
        assert Repicked(start[i], now[i]) && Allowed(noted, crtcs, modes, AssignmentOf(now), i);
        assert noted[i].mode == now[i].mode && AssignmentOf(now)[i].Some?;
      }
    }
  }

  lemma CompleteBack(a: seq<Output>, b: seq<Output>)
    requires OnlyReassigned(a, b, 0) && Complete(b, AssignmentOf(b))
    ensures Complete(a, AssignmentOf(b))
  {
    forall i | 0 <= i < |a| && Lit(a[i]) ensures AssignmentOf(b)[i].Some? {
      assert b[i] == a[i].(crtc := b[i].crtc);
    }
  }

  lemma CompleteStays(a: seq<Output>, b: seq<Output>)
    requires OnlyReassigned(a, b, 0) && Complete(a, AssignmentOf(b))
    ensures Complete(b, AssignmentOf(b))
  {
    forall i | 0 <= i < |b| && Lit(b[i]) ensures AssignmentOf(b)[i].Some? {
      assert b[i] == a[i].(crtc := b[i].crtc);
    }
  }

  lemma NotesKeepUnknown(a: seq<Output>, b: seq<Output>, crtcs: seq<Crtc>)
    requires |a| == |b| && forall i | 0 <= i < |a| :: b[i].info == a[i].info && b[i].mode == a[i].mode
    ensures UnknownCrtc(a, crtcs, 0) <==> UnknownCrtc(b, crtcs, 0)
  {
    assert forall i | 0 <= i < |a| :: b[i].info == a[i].info && Lit(b[i]) == Lit(a[i]);
  }
}
