/** The whole reconfiguration, from the loaded outputs to the server's final state. */
module Reconfigure {
  import opened Basics
  import opened Geometry
  import opened Displays
  import opened ScreenSize
  import opened CrtcSearch
  import opened CrtcPicking
  import opened CrtcSharing
  import opened Loading
  import opened Server
  import opened Showing
  import opened Undoing
  import opened Transaction
  import Positions
  import Layouts

  ghost predicate DistinctCrtcs(crtcs: seq<Crtc>) {
    && (forall c | 0 <= c < |crtcs| :: crtcs[c].xid != 0)
    && forall c, e | 0 <= c < e < |crtcs| :: crtcs[c].xid != crtcs[e].xid
  }

  ghost predicate DistinctXids(outs: seq<Output>) {
    forall i, j | 0 <= i < j < |outs| :: outs[i].xid != outs[j].xid
  }

  /** Output `xid` says that it hangs on the CRTC. */
  ghost predicate HangsOn(outs: seq<Output>, crtc: Crtc, xid: nat) {
    exists i :: 0 <= i < |outs| && outs[i].xid == xid && outs[i].info.crtc == crtc.xid
  }

  /** The server's answers about outputs and about CRTCs agree with each other. */
  ghost predicate AnswersAgree(outs: seq<Output>, crtcs: seq<Crtc>, modes: seq<Mode>) {
    && DistinctModes(modes) && DistinctCrtcs(crtcs) && DistinctXids(outs)
    && (forall c | 0 <= c < |crtcs| :: crtcs[c].info.mode != 0 ==> FindMode(modes, crtcs[c].info.mode).Some?)
    && forall c, u | 0 <= c < |crtcs| :: u in crtcs[c].info.outputs <==> HangsOn(outs, crtcs[c], u)
  }

  /** A CRTC record just as `get_crtcs` fills it in. */
  ghost predicate JustRead(crtc: Crtc) {
    crtc.outputs == [] && crtc.mode.None? && !crtc.changing && crtc.pending == crtc.current
  }

  lemma UsersAreUsed(outs: seq<Output>, c: nat, u: nat)
    ensures u in Xids(outs, Users(outs, c, |outs|)) <==> UsedBy(outs, c, u)
  {
    var users := Users(outs, c, |outs|);
    var xids := Xids(outs, users);
    if UsedBy(outs, c, u) {
      var i: nat :| i < |outs| && Lit(outs[i]) && outs[i].crtc == Some(c) && outs[i].xid == u;
      assert i in users;
      var e :| 0 <= e < |users| && users[e] == i;
      assert xids[e] == u;
    }
    if u in xids {
      var e :| 0 <= e < |xids| && xids[e] == u;
      assert Lit(outs[users[e]]) && outs[users[e]].crtc == Some(c);
    }
  }

  /** What is known about a CRTC that needs no change. */
  ghost predicate Unmarked(outs: seq<Output>, crtcs: seq<Crtc>, modes: seq<Mode>, crtc: Crtc, c: nat) {
    && AnswersAgree(outs, crtcs, modes) && c < |crtcs| && Matches(crtcs[c].info)
    && (forall i | 0 <= i < |outs| :: outs[i].changes == {} ==> FromServer(outs[i], crtcs, modes))
    && crtc.info == crtcs[c].info && crtc.outputs == Users(outs, c, |outs|)
    && !Touched(outs, crtc)
  }

  lemma OldOutputIsUsed(outs: seq<Output>, crtcs: seq<Crtc>, modes: seq<Mode>, crtc: Crtc, c: nat, u: nat)
    requires Unmarked(outs, crtcs, modes, crtc, c) && u in crtc.info.outputs
    ensures UsedBy(outs, c, u)
  {
    var e :| 0 <= e < |crtc.info.outputs| && crtc.info.outputs[e] == u;
    assert HangsOn(outs, crtcs[c], u);
    var i :| 0 <= i < |outs| && outs[i].xid == u && outs[i].info.crtc == crtcs[c].xid;
    assert FindXid(outs, u) == Some(i);
    assert !Changed(outs, FindXid(outs, crtc.info.outputs[e]));
    assert FromServer(outs[i], crtcs, modes);
  }

  lemma UsedOutputIsOld(outs: seq<Output>, crtcs: seq<Crtc>, modes: seq<Mode>, crtc: Crtc, c: nat, u: nat)
    requires Unmarked(outs, crtcs, modes, crtc, c) && UsedBy(outs, c, u)
    ensures u in crtc.info.outputs
  {
    var i: nat :| i < |outs| && Lit(outs[i]) && outs[i].crtc == Some(c) && outs[i].xid == u;
    assert i in crtc.outputs;
    var e :| 0 <= e < |crtc.outputs| && crtc.outputs[e] == i;
    assert !Changed(outs, Some(crtc.outputs[e]));
    assert FromServer(outs[i], crtcs, modes);
    assert HangsOn(outs, crtcs[c], u);
  }

  /** An unmarked CRTC already hangs on exactly the outputs it is to drive. */
  lemma UnmarkedKeepsOutputs(outs: seq<Output>, crtcs: seq<Crtc>, modes: seq<Mode>, crtc: Crtc, c: nat, u: nat)
    requires Unmarked(outs, crtcs, modes, crtc, c)
    ensures u in crtc.info.outputs <==> UsedBy(outs, c, u)
  {
    if u in crtc.info.outputs {
      OldOutputIsUsed(outs, crtcs, modes, crtc, c, u);
    }
    if UsedBy(outs, c, u) {
      UsedOutputIsOld(outs, crtcs, modes, crtc, c, u);
    }
  }

  /** A CRTC that is to change gets its own transform, not a foreign one. */
  predicate Takes(crtc: Crtc, before: CrtcState) {
    crtc.changing && crtc.mode.Some? ==> Undisturbed(crtc, before)
  }

  ghost predicate AllTake(crtcs: seq<Crtc>, before: ServerState) {
    |crtcs| == |before.crtcs| && forall c | 0 <= c < |crtcs| :: Takes(crtcs[c], before.crtcs[c])
  }

  /** That can be told before anything is planned: nothing waits on the server. */
  lemma NothingPendingDisturbs(crtcs: seq<Crtc>, before: ServerState)
    requires NothingPending(before) && |crtcs| == |before.crtcs|
    ensures AllUndisturbed(crtcs, before) && AllTake(crtcs, before)
  {
  }

  /** Reaching the target of a CRTC means showing what its first output asked for, marked or
      not, exactly if no foreign transform comes with it. */
  lemma ReachedMeansShown(outs: seq<Output>, crtcs: seq<Crtc>, modes: seq<Mode>, crtc: Crtc, c: nat,
                          before: CrtcState, after: CrtcState)
    requires AnswersAgree(outs, crtcs, modes) && c < |crtcs| && MirrorsCrtc(crtcs[c], before)
    requires forall i | 0 <= i < |outs| :: outs[i].changes == {} ==> FromServer(outs[i], crtcs, modes)
    requires JustRead(crtcs[c])
    requires exists set', marked, panning ::
               TargetSet(outs, |outs|, crtcs[c], set', c) && crtc == set'.(changing := marked, panning := panning)
    requires Touched(outs, crtc) ==> crtc.changing
    requires ValidTarget(outs, crtc) && TargetReached(outs, crtc, before, after)
    ensures Shows(outs, c, after) <==> Takes(crtc, before)
  {
    var set', marked, panning :| TargetSet(outs, |outs|, crtcs[c], set', c)
                                 && crtc == set'.(changing := marked, panning := panning);
    var users := Users(outs, c, |outs|);
    if users != [] {
      TargetIfUndisturbed(outs, crtc, before);
      var o := outs[users[0]];
      assert Lit(o) && o.crtc == Some(c);
      if crtc.changing {
        forall u ensures u in after.config.outputs <==> UsedBy(outs, c, u) {
          UsersAreUsed(outs, c, u);
        }
      } else {
        assert !Changed(outs, Some(crtc.outputs[0]));
        assert FromServer(o, crtcs, modes);
        forall u ensures u in after.config.outputs <==> UsedBy(outs, c, u) {
          UnmarkedKeepsOutputs(outs, crtcs, modes, crtc, c, u);
        }
      }
    }
  }

  // ---- What each stage hands to the next ----

  /** Placing an output leaves a mark unless it leaves everything alone. */
  lemma PlacingIsMarked(a: seq<Output>, b: seq<Output>)
    requires Positions.Settles(a, b)
    ensures |b| == |a|
    ensures forall i | 0 <= i < |a| :: Layouts.SameButPlace(a[i], b[i]) && a[i].changes <= b[i].changes
    ensures forall i | 0 <= i < |a| && b[i].changes == {} :: b[i] == a[i]
  {
    var n: nat :| Positions.FirstUnblocked(a, n) && Positions.IsNormalised(Positions.AfterPasses(a, n + 1), b);
    var p := Positions.AfterPasses(a, n + 1);
    Positions.PassesOnlyPlace(a, n + 1);
    forall i | 0 <= i < |a|
      ensures Layouts.SameButPlace(a[i], b[i]) && a[i].changes <= b[i].changes
      ensures b[i].changes == {} ==> b[i] == a[i]
    {
      assert Positions.PlacedFrom(a[i], p[i]);
      assert b[i] == Positions.Moved(p[i], Positions.LeastX(p), Positions.LeastY(p));
    }
  }

  /** `b` has the identity of `a`, and everything of it if it carries no mark. */
  ghost predicate Descends(a: Output, b: Output) {
    && b.xid == a.xid && b.info == a.info && b.mode == a.mode && b.rotation == a.rotation && b.transform == a.transform
    && b.name == a.name
    && (b.changes == {} ==> b == a.(currentCrtc := b.currentCrtc))
  }

  ghost predicate AllDescend(a: seq<Output>, b: seq<Output>) {
    |a| == |b| && forall i | 0 <= i < |a| :: Descends(a[i], b[i])
  }

  lemma DescendantsMirror(a: seq<Output>, b: seq<Output>, crtcs: seq<Crtc>, modes: seq<Mode>)
    requires AllDescend(a, b) && AnswersAgree(a, crtcs, modes)
    requires forall i | 0 <= i < |a| :: Loaded(a[i], crtcs, modes)
    ensures AnswersAgree(b, crtcs, modes)
    ensures forall i | 0 <= i < |b| :: b[i].changes == {} ==> FromServer(b[i], crtcs, modes)
    ensures forall i | 0 <= i < |b| :: b[i].mode.Some? ==> b[i].mode.value in modes
  {
    forall i | 0 <= i < |b|
      ensures b[i].changes == {} ==> FromServer(b[i], crtcs, modes)
      ensures b[i].mode.Some? ==> b[i].mode.value in modes
    {
      assert Descends(a[i], b[i]) && Loaded(a[i], crtcs, modes);
    }
    forall i, j | 0 <= i < j < |b| ensures b[i].xid != b[j].xid {
      assert Descends(a[i], b[i]) && Descends(a[j], b[j]);
    }
    forall c, u | 0 <= c < |crtcs| ensures u in crtcs[c].info.outputs <==> HangsOn(b, crtcs[c], u) {
      HangingDescends(a, b, crtcs[c], u);
    }
  }

  lemma HangingDescends(a: seq<Output>, b: seq<Output>, crtc: Crtc, u: nat)
    requires AllDescend(a, b)
    ensures HangsOn(a, crtc, u) <==> HangsOn(b, crtc, u)
  {
    if HangsOn(a, crtc, u) {
      var i :| 0 <= i < |a| && a[i].xid == u && a[i].info.crtc == crtc.xid;
      assert Descends(a[i], b[i]);
    }
    if HangsOn(b, crtc, u) {
      var i :| 0 <= i < |b| && b[i].xid == u && b[i].info.crtc == crtc.xid;
      assert Descends(a[i], b[i]);
    }
  }

  lemma ModeIsFound(modes: seq<Mode>, mode: Mode)
    requires DistinctModes(modes) && mode in modes
    ensures FindMode(modes, mode.id) == Some(mode) && mode.id != 0
  {
  }

  /** A CRTC that shows a covered output fits the framebuffer. */
  lemma TargetOfCoveredFits(outs: seq<Output>, modes: seq<Mode>, crtc: Crtc, c: nat, start: Crtc, set': Crtc,
                            st: CrtcState, width: int, height: int)
    requires DistinctModes(modes) && forall i | 0 <= i < |outs| :: outs[i].mode.Some? ==> outs[i].mode.value in modes
    requires JustRead(start) && MirrorsCrtc(start, st) && TargetSet(outs, |outs|, start, set', c)
    requires crtc == set'.(changing := crtc.changing, panning := crtc.panning)
    ensures ValidTarget(outs, crtc) && MirrorsCrtc(crtc, st)
    ensures AllOutputsFit(outs, width, height) && Undisturbed(crtc, st) ==>
              TargetFits(outs, crtc, st, modes, width, height)
  {
    var users := Users(outs, c, |outs|);
    if users != [] {
      var o := outs[users[0]];
      assert Lit(o);
      ModeIsFound(modes, o.mode.value);
      TargetIfUndisturbed(outs, crtc, st);
      if AllOutputsFit(outs, width, height) {
        assert OutputFits(o, width, height);
      }
    }
  }

  datatype Outcome = Success | Panicked | Fatal

  /** The CRTC records hold the panning areas that the server has. */
  ghost predicate PanningRead(crtcs: seq<Crtc>, st: ServerState) {
    |crtcs| == |st.crtcs| && forall c | 0 <= c < |crtcs| :: crtcs[c].panning == st.crtcs[c].panning
  }

  /** The CRTC records and the screen are as they were read from the server. */
  ghost predicate ReadFrom(d: Display, s: Server, current: Screen)
    reads d, d.crtcs, s
  {
    && (forall c | 0 <= c < d.crtcs.Length :: JustRead(d.crtcs[c]))
    && Mirrors(d.crtcs[..], s.state) && PanningRead(d.crtcs[..], s.state)
    && current == s.state.screen && WithinLimits(current, s.limits)
    && s.limits.minWidth <= s.limits.maxWidth && s.limits.minHeight <= s.limits.maxHeight
  }

  /** Everything that the stages need: the loaded outputs, the CRTCs as read, and a server that agrees with them. */
  ghost predicate Begin(d: Display, s: Server, current: Screen)
    reads d, d.outputs, d.crtcs, s
  {
    && AnswersAgree(d.outputs[..], d.crtcs[..], s.modes)
    && (forall i | 0 <= i < d.outputs.Length :: Loaded(d.outputs[i], d.crtcs[..], s.modes))
    && ReadFrom(d, s, current)
  }

  /** What `apply` works from: CRTC targets made of placed, covered and assigned outputs. */
  ghost predicate Planned(outs: seq<Output>, start: seq<Crtc>, crtcs: seq<Crtc>) {
    && |start| == |crtcs|
    && forall c | 0 <= c < |crtcs| :: PlannedCrtc(outs, start[c], crtcs[c], c)
  }

  ghost predicate PlannedCrtc(outs: seq<Output>, start: Crtc, crtc: Crtc, c: nat) {
    && (exists set' :: TargetSet(outs, |outs|, start, set', c)
                       && crtc == set'.(changing := crtc.changing, panning := crtc.panning))
    && PannedAsAsked(outs, |outs|, c, start.panning, crtc.panning)
    && (crtc.changing <==> start.changing || Touched(outs, crtc) || !NobodyAsks(outs, |outs|, c))
  }

  ghost predicate WithinRange(limits: Limits, width: int, height: int) {
    limits.minWidth <= width <= limits.maxWidth && limits.minHeight <= height <= limits.maxHeight
  }

  /** Every lit output has a CRTC that exists. */
  ghost predicate AllHaveCrtcs(outs: seq<Output>, count: nat) {
    forall i | 0 <= i < |outs| && Lit(outs[i]) :: outs[i].crtc.Some? && outs[i].crtc.value < count
  }

  ghost predicate AllRelationsHold(start: seq<Output>, outs: seq<Output>)
    requires |start| == |outs|
  {
    forall i: nat, j: nat | Positions.Edge(start, i, j) :: Layouts.Stands(outs[i], outs[j])
  }

  /** What placing and assigning make of the loaded outputs. */
  ghost predicate Arranged(start: seq<Output>, outs: seq<Output>, count: nat) {
    && AllDescend(start, outs) && AllHaveCrtcs(outs, count)
    && (Positions.Consistent(start) ==> AllRelationsHold(start, outs))
    && (Positions.Consistent(start) && Harmonious(start) ==> SharersAgree(outs))
  }

  /** The stages before `apply`; returns false where the program stops with an error. */
  method Plan(d: Display, s: Server, current: Screen, passes: nat) returns (ok: bool)
    requires Begin(d, s, current)
    modifies d, d.outputs, d.crtcs
    ensures ok ==> Arranged(old(d.outputs[..]), d.outputs[..], d.crtcs.Length)
    ensures ok ==> Planned(d.outputs[..], old(d.crtcs[..]), d.crtcs[..])
    ensures ok ==> WithinRange(s.limits, d.fbWidth, d.fbHeight)
    ensures ok && old(d.fbWidth == 0 || d.fbHeight == 0) ==> AllOutputsFit(d.outputs[..], d.fbWidth, d.fbHeight)
    ensures !ok && d.outputs.Length < passes && d.outputs.Length <= 1000 ==>
              CannotAssign(old(d.outputs[..]), old(d.crtcs[..]), s.modes, old((d.fbWidth, d.fbHeight)), s.limits)
    ensures ok && d.outputs.Length < passes ==> Positions.Verdict(old(d.outputs[..])) == Positions.Done
  {
    ghost var start := d.outputs[..];
    ok := Assign(d, s, passes);
    if !ok {
      return;
    }
    DescendantsMirror(start, d.outputs[..], d.crtcs[..], s.modes);
    OldOutputsKnown(d.outputs[..], d.crtcs[..], s.modes);
    ok := PlanTargets(d);
  }

  /** The server names no output that it does not list. */
  lemma OldOutputsKnown(outs: seq<Output>, crtcs: seq<Crtc>, modes: seq<Mode>)
    requires AnswersAgree(outs, crtcs, modes)
    ensures forall c | 0 <= c < |crtcs| :: AllKnown(outs, crtcs[c].info.outputs)
  {
    forall c, e | 0 <= c < |crtcs| && 0 <= e < |crtcs[c].info.outputs|
      ensures FindXid(outs, crtcs[c].info.outputs[e]).Some?
    {
      assert crtcs[c].info.outputs[e] in crtcs[c].info.outputs;
      assert HangsOn(outs, crtcs[c], crtcs[c].info.outputs[e]);
    }
  }

  /** Places the outputs, sizes the framebuffer and assigns CRTCs. */
  method Assign(d: Display, s: Server, passes: nat) returns (ok: bool)
    requires forall i | 0 <= i < d.outputs.Length :: Loaded(d.outputs[i], d.crtcs[..], s.modes)
    requires s.limits.minWidth <= s.limits.maxWidth && s.limits.minHeight <= s.limits.maxHeight
    modifies d, d.outputs
    ensures ok ==> Arranged(old(d.outputs[..]), d.outputs[..], d.crtcs.Length)
    ensures ok ==> WithinRange(s.limits, d.fbWidth, d.fbHeight)
    ensures ok && old(d.fbWidth == 0 || d.fbHeight == 0) ==> AllOutputsFit(d.outputs[..], d.fbWidth, d.fbHeight)
    ensures !ok && d.outputs.Length < passes && d.outputs.Length <= 1000 ==>
              CannotAssign(old(d.outputs[..]), d.crtcs[..], s.modes, old((d.fbWidth, d.fbHeight)), s.limits)
    ensures ok && d.outputs.Length < passes ==> Positions.Verdict(old(d.outputs[..])) == Positions.Done
  {
    ghost var start := d.outputs[..];
    ok := Place(d, s, passes);
    if !ok {
      return;
    }
    ghost var positioned := d.outputs[..];
    PlacedIsAssignable(start, positioned, d.crtcs[..], s.modes);
    ok := PickCrtcs(d, s.modes);
    if !ok {
      forall other | Positions.Settles(start, other) ensures other == positioned {
        Positions.SettlesOneWay(start, other, positioned);
      }
      return;
    }
    PickedIsArranged(start, positioned, d.crtcs[..], s.modes, d.outputs[..]);
    PickingKeepsFit(positioned, d.outputs[..], d.fbWidth, d.fbHeight);
  }

  lemma PickedIsArranged(start: seq<Output>, positioned: seq<Output>, crtcs: seq<Crtc>, modes: seq<Mode>,
                         outs: seq<Output>)
    requires Positions.Settles(start, positioned) && Picked(positioned, crtcs, modes, outs)
    requires Positions.Consistent(start) ==> Positions.Solves(start, positioned)
    ensures Arranged(start, outs, |crtcs|) && OnlyRepicked(positioned, outs)
  {
    PickedGivesAll(positioned, crtcs, modes, outs);
    PickingKeeps(start, positioned, outs);
    if Positions.Consistent(start) && Harmonious(start) {
      HarmoniousIsCompatible(start, positioned);
      CompatibleAgree(positioned, crtcs, modes, outs);
    }
  }

  /** Places the outputs and sizes the framebuffer. */
  method Place(d: Display, s: Server, passes: nat) returns (ok: bool)
    requires s.limits.minWidth <= s.limits.maxWidth && s.limits.minHeight <= s.limits.maxHeight
    modifies d, d.outputs
    ensures ok ==> Positions.Settles(old(d.outputs[..]), d.outputs[..])
    ensures ok && Positions.Consistent(old(d.outputs[..])) ==> Positions.Solves(old(d.outputs[..]), d.outputs[..])
    ensures ok ==> WithinRange(s.limits, d.fbWidth, d.fbHeight)
    ensures ok && old(d.fbWidth == 0 || d.fbHeight == 0) ==> AllOutputsFit(d.outputs[..], d.fbWidth, d.fbHeight)
    ensures passes > d.outputs.Length ==>
              && (ok ==> CanPlace(old(d.outputs[..]), d.outputs[..], d.crtcs[..], old((d.fbWidth, d.fbHeight)),
                                  s.limits))
              && (!ok ==> CannotPlace(old(d.outputs[..]), d.crtcs[..], old((d.fbWidth, d.fbHeight)), s.limits))
  {
    ghost var start := d.outputs[..];
    var placed := Positions.SetPositions(d, passes);
    if !placed.Done? {
      return false;
    }
    ghost var positioned, fb := d.outputs[..], (d.fbWidth, d.fbHeight);
    ok := SetScreenSize(d, s.limits);
    assert ok <==> SizeAllowed(positioned, d.crtcs[..], fb, s.limits);
    if !ok {
      forall other | Positions.Settles(start, other) ensures other == positioned {
        Positions.SettlesOneWay(start, other, positioned);
      }
    }
  }

  /** Placing ends, in this layout, and there is a size for it. */
  ghost predicate CanPlace(start: seq<Output>, positioned: seq<Output>, crtcs: seq<Crtc>, fb: (int, int),
                           limits: Limits) {
    && Positions.Verdict(start) == Positions.Done && Positions.Settles(start, positioned)
    && SizeAllowed(positioned, crtcs, fb, limits)
  }

  /** Placing never ends, or fails, or there is no size for the layout. */
  ghost predicate CannotPlace(start: seq<Output>, crtcs: seq<Crtc>, fb: (int, int), limits: Limits) {
    || Positions.Verdict(start) != Positions.Done
    || forall positioned | Positions.Settles(start, positioned) :: !SizeAllowed(positioned, crtcs, fb, limits)
  }

  /** Why nothing can be planned: no layout, no size, or no CRTCs for the layout. */
  ghost predicate CannotAssign(start: seq<Output>, crtcs: seq<Crtc>, modes: seq<Mode>, fb: (int, int), limits: Limits) {
    || CannotPlace(start, crtcs, fb, limits)
    || forall positioned | Positions.Settles(start, positioned) :: CannotPick(positioned, crtcs, modes)
  }

  lemma PlacedIsAssignable(start: seq<Output>, positioned: seq<Output>, crtcs: seq<Crtc>, modes: seq<Mode>)
    requires Positions.Settles(start, positioned)
    requires forall i | 0 <= i < |start| :: Loaded(start[i], crtcs, modes)
    ensures AllAssignable(positioned, crtcs)
  {
    PlacingIsMarked(start, positioned);
    forall i | 0 <= i < |positioned| ensures Assignable(positioned[i], crtcs) {
      assert Layouts.SameButPlace(start[i], positioned[i]) && Loaded(start[i], crtcs, modes);
    }
  }

  ghost predicate AllOutputsFit(outs: seq<Output>, width: int, height: int) {
    forall i | 0 <= i < |outs| :: OutputFits(outs[i], width, height)
  }

  /** Turns the assigned outputs into CRTC targets and marks the CRTCs that change. */
  method PlanTargets(d: Display) returns (ok: bool)
    requires forall c | 0 <= c < d.crtcs.Length :: JustRead(d.crtcs[c])
    requires AllHaveCrtcs(d.outputs[..], d.crtcs.Length)
    modifies d.crtcs
    ensures ok ==> Planned(d.outputs[..], old(d.crtcs[..]), d.crtcs[..])
    ensures ok <==> forall c | 0 <= c < d.crtcs.Length :: AllKnown(d.outputs[..], old(d.crtcs[..])[c].info.outputs)
  {
    ghost var read, outs := d.crtcs[..], d.outputs[..];
    SetCrtcs(d);
    ghost var set' := d.crtcs[..];
    forall c | 0 <= c < d.crtcs.Length ensures ValidIndices(outs, d.crtcs[c].outputs) {
      assert TargetSet(outs, |outs|, read[c], set'[c], c);
    }
    ok := MarkChangingCrtcs(d);
    if !ok {
      return;
    }
    ghost var marked := d.crtcs[..];
    SetPanning(d);
    forall c | 0 <= c < d.crtcs.Length ensures PlannedCrtc(outs, read[c], d.crtcs[c], c) {
      assert TargetSet(outs, |outs|, read[c], set'[c], c);
      assert IsPanned(outs, |outs|, c, marked[c], d.crtcs[c]);
      PlannedFrom(outs, read[c], set'[c], marked[c], d.crtcs[c], c);
    }
  }

  lemma PlannedFrom(outs: seq<Output>, read: Crtc, set': Crtc, marked: Crtc, crtc: Crtc, c: nat)
    requires TargetSet(outs, |outs|, read, set', c)
    requires marked == set'.(changing := set'.changing || Touched(outs, set'))
    requires IsPanned(outs, |outs|, c, marked, crtc)
    ensures PlannedCrtc(outs, read, crtc, c)
  {
    assert crtc == set'.(changing := crtc.changing, panning := crtc.panning);
    assert Touched(outs, crtc) <==> Touched(outs, set');
  }

  lemma RepickedDescends(a: Output, p: Output, o: Output)
    requires Layouts.SameButPlace(a, p) && (p.changes == {} ==> p == a) && Repicked(p, o)
    ensures Descends(a, o)
  {
  }

  lemma RepickedRelation(p: Output, q: Output, p': Output, q': Output)
    requires Layouts.RelationHolds(p, q) && Repicked(p, p') && Repicked(q, q')
    ensures Layouts.RelationHolds(p', q')
  {
  }

  lemma PickingKeepsFit(positioned: seq<Output>, outs: seq<Output>, width: int, height: int)
    requires OnlyRepicked(positioned, outs)
    ensures AllOutputsFit(positioned, width, height) ==> AllOutputsFit(outs, width, height)
  {
    if AllOutputsFit(positioned, width, height) {
      forall i | 0 <= i < |outs| ensures OutputFits(outs[i], width, height) {
        assert Repicked(positioned[i], outs[i]) && OutputFits(positioned[i], width, height);
      }
    }
  }

  /** Picking CRTCs keeps places. */
  lemma PickingKeeps(start: seq<Output>, positioned: seq<Output>, outs: seq<Output>)
    requires Positions.Settles(start, positioned) && OnlyRepicked(positioned, outs)
    ensures AllDescend(start, outs)
    ensures Positions.Solves(start, positioned) ==> AllRelationsHold(start, outs)
  {
    PlacingIsMarked(start, positioned);
    forall i | 0 <= i < |outs| ensures Descends(start[i], outs[i]) {
      RepickedDescends(start[i], positioned[i], outs[i]);
    }
    if Positions.Solves(start, positioned) {
      PickingKeepsRelations(start, positioned, outs);
    }
  }

  lemma PickingKeepsRelations(start: seq<Output>, positioned: seq<Output>, outs: seq<Output>)
    requires Positions.Solves(start, positioned) && OnlyRepicked(positioned, outs) && |start| == |outs|
    ensures AllRelationsHold(start, outs)
  {
    var dx, dy := Layouts.RelationsHold(start, positioned);
    forall i: nat, j: nat | Positions.Edge(start, i, j) ensures Layouts.Stands(outs[i], outs[j]) {
      RepickedRelation(positioned[i], positioned[j], outs[i], outs[j]);
      Layouts.RelationMeans(outs[i], outs[j]);
    }
  }

  /** What a successful run leaves: all relations hold; every CRTC shows what its first output
      asked for, and only on its outputs, exactly if no foreign transform came with it; and then
      all outputs get what they asked for exactly if those that share a CRTC agree. */
  ghost predicate Displayed(start: seq<Output>, outs: seq<Output>, crtcs: seq<Crtc>, before: ServerState,
                            now: ServerState) {
    && Arranged(start, outs, |now.crtcs|) && ShownIfTaken(outs, crtcs, before, now) && AllPanned(outs, before, now)
    && (AllTake(crtcs, before) ==> (AllAsAsked(outs, now.crtcs) <==> SharersAgree(outs)))
  }

  /** Every CRTC that shows something has the panning area that the last of its outputs to request
      one asked for; where none did, and where nothing is shown, the area stays. */
  ghost predicate AllPanned(outs: seq<Output>, before: ServerState, now: ServerState) {
    && |before.crtcs| == |now.crtcs|
    && forall c | 0 <= c < |now.crtcs| ::
         if Users(outs, c, |outs|) == [] then now.crtcs[c].panning == before.crtcs[c].panning
         else PannedAsAsked(outs, |outs|, c, before.crtcs[c].panning, now.crtcs[c].panning)
  }

  ghost predicate ShownIfTaken(outs: seq<Output>, crtcs: seq<Crtc>, before: ServerState, now: ServerState) {
    && |crtcs| == |before.crtcs| == |now.crtcs|
    && forall c | 0 <= c < |crtcs| :: Shows(outs, c, now.crtcs[c]) <==> Takes(crtcs[c], before.crtcs[c])
  }

  /** Every state since `from` had all enabled CRTCs on the screen, exactly if nothing failed or
      what was restored then fits the size that the screen ended with. */
  ghost predicate FitsUnlessStranded(s: Server, from: nat, ok: bool, crtcs: seq<Crtc>, before: ServerState,
                                     restored: seq<bool>)
    reads s
  {
    AlwaysFit(s.log, from, s.modes) <==>
    ok || RestoredFit(crtcs, before, restored, s.modes, s.state.screen.width, s.state.screen.height)
  }

  /** The old configuration is back exactly if no foreign transform came with it. */
  ghost predicate BackIfUndisturbed(crtcs: seq<Crtc>, before: ServerState, now: ServerState) {
    Restored(before, now) <==> AllUndisturbed(crtcs, before)
  }

  /** The size is to be found, everything fits now, and no transform waits on the server. */
  ghost predicate Orderly(d: Display, s: Server)
    reads d, s
  {
    (d.fbWidth == 0 || d.fbHeight == 0) && StateFits(s.state, s.modes) && NothingPending(s.state)
  }

  /** No output that hangs on the CRTC, or is to, was changed. */
  ghost predicate Unconcerned(outs: seq<Output>, crtc: Crtc, c: nat) {
    forall i | 0 <= i < |outs| && (outs[i].info.crtc == crtc.xid || outs[i].crtc == Some(c)) :: outs[i].changes == {}
  }

  /** A CRTC that no change concerns, and that fits the new size, is not touched by any request. */
  ghost predicate UnconcernedLeftAlone(outs: seq<Output>, read: seq<Crtc>, before: ServerState, modes: seq<Mode>,
                                       width: int, height: int, log: seq<Reply>, from: nat) {
    && |read| == |before.crtcs|
    && forall c | 0 <= c < |read| && Unconcerned(outs, read[c], c) && CrtcFits(before.crtcs[c], modes, width, height) ::
         LeftAlone(log, from, c, before.crtcs[c])
  }

  /** How a run may end. A fatal error leaves the server alone. After success everything is displayed.
      After a refused request everything is undone, if that is accepted. */
  ghost predicate Ended(r: Outcome, start: seq<Output>, outs: seq<Output>, crtcs: seq<Crtc>, before: ServerState,
                        now: ServerState, from: nat, log: seq<Reply>, panicAt: nat) {
    match r
    case Fatal => now == before && |log| == from
    case Success =>
      && Displayed(start, outs, crtcs, before, now) && AllAccepted(log, from)
      && (Positions.Consistent(start) && Harmonious(start) && NothingPending(before) ==> AllAsAsked(outs, now.crtcs))
    case Panicked =>
      && from <= panicAt && panicAt + |crtcs| < |log| && FailsLast(log[..panicAt], from)
      && (AllAccepted(log, panicAt) ==>
            BackIfUndisturbed(crtcs, before, now) && (NothingPending(before) ==> Restored(before, now)))
  }

  /** The whole run of the program, from the loaded outputs on. `passes` bounds the placement passes. */
  method Run(d: Display, s: Server, current: Screen, mmWidth: int, mmHeight: int, passes: nat)
    returns (r: Outcome, ghost panicAt: nat, ghost restored: seq<bool>)
    requires Begin(d, s, current)
    modifies d, d.outputs, d.crtcs, s
    ensures old(s.log) <= s.log
    ensures Ended(r, old(d.outputs[..]), d.outputs[..], d.crtcs[..], old(s.state), s.state, |old(s.log)|, s.log,
                  panicAt)
    ensures r.Success? ==> s.state.screen == Screen(d.fbWidth, d.fbHeight, mmWidth, mmHeight)
    ensures r.Success? ==> UnconcernedLeftAlone(d.outputs[..], old(d.crtcs[..]), old(s.state), s.modes,
                                                d.fbWidth, d.fbHeight, s.log, |old(s.log)|)
    // a fatal error has a reason: there is no layout, no size or no CRTCs
    ensures r.Fatal? && d.outputs.Length < passes && d.outputs.Length <= 1000 ==>
              CannotAssign(old(d.outputs[..]), old(d.crtcs[..]), s.modes, old((d.fbWidth, d.fbHeight)), s.limits)
    ensures !r.Fatal? && d.outputs.Length < passes ==> Positions.Verdict(old(d.outputs[..])) == Positions.Done
    // what is cut off by the screen on the way
    ensures !r.Fatal? && old(Orderly(d, s)) ==>
              FitsUnlessStranded(s, |old(s.log)|, r.Success?, d.crtcs[..], old(s.state), restored)
  {
    ghost var start, read := d.outputs[..], d.crtcs[..];
    panicAt, restored := |s.log|, [];
    var ok := Plan(d, s, current, passes);
    if !ok {
      return Fatal, panicAt, restored;
    }
    DescendantsMirror(start, d.outputs[..], read, s.modes);
    ok, panicAt, restored := Commit(d, s, current, Screen(d.fbWidth, d.fbHeight, mmWidth, mmHeight), read);
    r := if ok then Success else Panicked;
    if NothingPending(old(s.state)) {
      NothingPendingDisturbs(d.crtcs[..], old(s.state));
    }
  }

  /** The whole run, from the requests on the command line and the server's answers on. */
  method RunRequests(d: Display, s: Server, current: Screen, infos: seq<OutputInfo>, requests: seq<Request>,
                     mmWidth: int, mmHeight: int, passes: nat)
    returns (r: Outcome, ghost loaded: seq<Output>, ghost panicAt: nat, ghost restored: seq<bool>)
    requires |infos| == |requests| == d.outputs.Length
    requires forall i | 0 <= i < |requests| :: FoundAmong(requests[i], s.modes)
    requires AnswersAgree(WithInfos(d.outputs[..], infos), d.crtcs[..], s.modes) && ReadFrom(d, s, current)
    modifies d, d.outputs, d.crtcs, s
    ensures old(s.log) <= s.log
    ensures Ended(r, loaded, d.outputs[..], d.crtcs[..], old(s.state), s.state, |old(s.log)|, s.log, panicAt)
    ensures r.Fatal? && d.outputs.Length < passes && d.outputs.Length <= 1000 ==>
              || !AllMayLoad(old(d.outputs[..]), infos, requests, old(d.crtcs[..]), s.modes)
              || CannotAssign(loaded, old(d.crtcs[..]), s.modes, old((d.fbWidth, d.fbHeight)), s.limits)
    ensures !r.Fatal? ==>
              && AllMayLoad(old(d.outputs[..]), infos, requests, old(d.crtcs[..]), s.modes)
              && HaveBecome(old(d.outputs[..]), infos, requests, old(d.crtcs[..]), s.modes, loaded)
    ensures !r.Fatal? && old(Orderly(d, s)) ==>
              FitsUnlessStranded(s, |old(s.log)|, r.Success?, d.crtcs[..], old(s.state), restored)
  {
    ghost var start := d.outputs[..];
    panicAt, restored, loaded := |s.log|, [], [];
    var ok := LoadOutputs(d, infos, s.modes, requests);
    if !ok {
      return Fatal, loaded, panicAt, restored;
    }
    loaded := d.outputs[..];
    SameAnswers(WithInfos(start, infos), loaded, d.crtcs[..], s.modes);
    r, panicAt, restored := Run(d, s, current, mmWidth, mmHeight, passes);
  }

  /** Every output of the list may be completed. */
  ghost predicate AllMayLoad(outs: seq<Output>, infos: seq<OutputInfo>, requests: seq<Request>, crtcs: seq<Crtc>,
                             modes: seq<Mode>) {
    && |outs| == |infos| == |requests|
    && forall i | 0 <= i < |outs| :: MayLoad(outs[i], infos[i], requests[i], crtcs, modes)
  }

  /** And each has become what it may. */
  ghost predicate HaveBecome(outs: seq<Output>, infos: seq<OutputInfo>, requests: seq<Request>, crtcs: seq<Crtc>,
                             modes: seq<Mode>, loaded: seq<Output>) {
    && |outs| == |infos| == |requests| == |loaded|
    && forall i | 0 <= i < |outs| :: MayBecome(outs[i], infos[i], requests[i], crtcs, modes, loaded[i])
  }

  function WithInfos(outs: seq<Output>, infos: seq<OutputInfo>): (r: seq<Output>)
    requires |infos| == |outs|
    ensures |r| == |outs|
  {
    seq(|outs|, i requires 0 <= i < |outs| => outs[i].(info := infos[i]))
  }

  lemma SameAnswers(a: seq<Output>, b: seq<Output>, crtcs: seq<Crtc>, modes: seq<Mode>)
    requires AnswersAgree(a, crtcs, modes) && |a| == |b|
    requires forall i | 0 <= i < |a| :: b[i].xid == a[i].xid && b[i].info == a[i].info
    ensures AnswersAgree(b, crtcs, modes)
  {
    forall c, u | 0 <= c < |crtcs| ensures u in crtcs[c].info.outputs <==> HangsOn(b, crtcs[c], u) {
      assert HangsOn(a, crtcs[c], u) <==> HangsOn(b, crtcs[c], u);
    }
  }

  /** What is known of the plan when the server is to be changed. */
  ghost predicate Prepared(outs: seq<Output>, read: seq<Crtc>, planned: seq<Crtc>, modes: seq<Mode>, st: ServerState) {
    && AnswersAgree(outs, read, modes) && Mirrors(read, st) && PanningRead(read, st)
    && (forall i | 0 <= i < |outs| :: outs[i].changes == {} ==> FromServer(outs[i], read, modes))
    && (forall i | 0 <= i < |outs| :: outs[i].mode.Some? ==> outs[i].mode.value in modes)
    && (forall c | 0 <= c < |read| :: JustRead(read[c]))
    && Planned(outs, read, planned) && AllHaveCrtcs(outs, |read|)
  }

  /** Applies a plan. Afterwards every CRTC shows what its first output asked for, and all
      outputs get what they asked for exactly if those that share a CRTC agree; or the old
      state is back; unless foreign transforms get in the way. */
  method Commit(d: Display, s: Server, current: Screen, target: Screen, ghost read: seq<Crtc>)
    returns (ok: bool, ghost panicAt: nat, ghost restored: seq<bool>)
    requires Prepared(d.outputs[..], read, d.crtcs[..], s.modes, s.state)
    requires current == s.state.screen && WithinLimits(current, s.limits) && WithinLimits(target, s.limits)
    requires target.width == d.fbWidth && target.height == d.fbHeight
    modifies d.crtcs, s
    ensures old(s.log) <= s.log && |old(s.log)| <= panicAt <= |s.log|
    ensures ok ==> s.state.screen == target && ShownIfTaken(d.outputs[..], d.crtcs[..], old(s.state), s.state)
    ensures ok ==> AllPanned(d.outputs[..], old(s.state), s.state)
    ensures ok && AllTake(d.crtcs[..], old(s.state)) ==>
              (AllAsAsked(d.outputs[..], s.state.crtcs) <==> SharersAgree(d.outputs[..]))
    ensures ok ==> AllAccepted(s.log, |old(s.log)|)
    ensures ok ==> UnconcernedLeftAlone(d.outputs[..], read, old(s.state), s.modes, target.width, target.height,
                                        s.log, |old(s.log)|)
    ensures !ok ==> |s.log| > panicAt + d.crtcs.Length && FailsLast(s.log[..panicAt], |old(s.log)|)
    ensures !ok && AllAccepted(s.log, panicAt) ==> BackIfUndisturbed(d.crtcs[..], old(s.state), s.state)
    ensures |old(s.state).crtcs| == d.crtcs.Length
    ensures AllOutputsFit(d.outputs[..], target.width, target.height)
            && old(StateFits(s.state, s.modes) && AllUndisturbed(d.crtcs[..], s.state)) ==>
              FitsUnlessStranded(s, |old(s.log)|, ok, d.crtcs[..], old(s.state), restored)
  {
    ghost var outs, planned, before := d.outputs[..], d.crtcs[..], s.state;
    PlanIsReady(outs, read, planned, s.modes, before, target.width, target.height);
    ghost var from := |s.log|;
    ok, panicAt, restored := Apply(d, s, current, target);
    if ok {
      AllShown(outs, read, planned, d.crtcs[..], s.modes, before, s.state);
      AllHavePanning(outs, read, planned, d.crtcs[..], s.modes, before, s.state);
      assert s.log[..panicAt] == s.log;
      UnconcernedAreQuiet(outs, read, planned, s.modes, before, target.width, target.height, s.log, from);
      if AllTake(d.crtcs[..], before) {
        AsAskedMeansAgreement(outs, s.modes, s.state.crtcs);
      }
    }
  }

  lemma AllShown(outs: seq<Output>, read: seq<Crtc>, planned: seq<Crtc>, crtcs: seq<Crtc>, modes: seq<Mode>,
                 before: ServerState, after: ServerState)
    requires Prepared(outs, read, planned, modes, before) && |after.crtcs| == |read|
    requires OnlyMarked(planned, crtcs) && ValidTargets(outs, crtcs)
    requires forall c | 0 <= c < |crtcs| :: TargetReached(outs, crtcs[c], before.crtcs[c], after.crtcs[c])
    ensures ShownIfTaken(outs, crtcs, before, after)
  {
    forall c | 0 <= c < |crtcs| ensures Shows(outs, c, after.crtcs[c]) <==> Takes(crtcs[c], before.crtcs[c]) {
      assert PlannedCrtc(outs, read[c], planned[c], c) && MirrorsCrtc(read[c], before.crtcs[c]);
      PlannedAfterMarking(outs, read[c], planned[c], crtcs[c], c);
      ReachedMeansShown(outs, read, modes, crtcs[c], c, before.crtcs[c], after.crtcs[c]);
    }
  }

  /** What no change concerns is quiet: it already runs on the outputs that it is to drive. */
  lemma UnconcernedIsQuiet(outs: seq<Output>, read: seq<Crtc>, planned: seq<Crtc>, modes: seq<Mode>,
                           before: ServerState, width: int, height: int, c: nat)
    requires Prepared(outs, read, planned, modes, before) && c < |read|
    requires Unconcerned(outs, read[c], c) && CrtcFits(before.crtcs[c], modes, width, height)
    ensures Quiet(planned[c], before.crtcs[c], modes, width, height)
  {
    assert PlannedCrtc(outs, read[c], planned[c], c) && MirrorsCrtc(read[c], before.crtcs[c]);
    forall e | 0 <= e < |read[c].info.outputs| ensures !Changed(outs, FindXid(outs, read[c].info.outputs[e])) {
      var u := read[c].info.outputs[e];
      assert HangsOn(outs, read[c], u);
      var i :| 0 <= i < |outs| && outs[i].xid == u && outs[i].info.crtc == read[c].xid;
      var f := FindXid(outs, u).value;
      assert f == i;
    }
    assert !Touched(outs, planned[c]);
    if read[c].info.mode != 0 {
      var u := read[c].info.outputs[0];
      assert Unmarked(outs, read, modes, planned[c], c);
      UnmarkedKeepsOutputs(outs, read, modes, planned[c], c, u);
    }
  }

  lemma UnconcernedAreQuiet(outs: seq<Output>, read: seq<Crtc>, planned: seq<Crtc>, modes: seq<Mode>,
                            before: ServerState, width: int, height: int, log: seq<Reply>, from: nat)
    requires Prepared(outs, read, planned, modes, before)
    requires QuietLeftAlone(planned, before, modes, width, height, log, from)
    ensures UnconcernedLeftAlone(outs, read, before, modes, width, height, log, from)
  {
    forall c | 0 <= c < |read| && Unconcerned(outs, read[c], c) && CrtcFits(before.crtcs[c], modes, width, height)
      ensures LeftAlone(log, from, c, before.crtcs[c])
    {
      UnconcernedIsQuiet(outs, read, planned, modes, before, width, height, c);
    }
  }

  lemma AllHavePanning(outs: seq<Output>, read: seq<Crtc>, planned: seq<Crtc>, crtcs: seq<Crtc>, modes: seq<Mode>,
                       before: ServerState, after: ServerState)
    requires Prepared(outs, read, planned, modes, before) && |after.crtcs| == |read|
    requires OnlyMarked(planned, crtcs) && ValidTargets(outs, crtcs)
    requires forall c | 0 <= c < |crtcs| :: TargetReached(outs, crtcs[c], before.crtcs[c], after.crtcs[c])
    ensures AllPanned(outs, before, after)
  {
    forall c | 0 <= c < |crtcs|
      ensures if Users(outs, c, |outs|) == [] then after.crtcs[c].panning == before.crtcs[c].panning
              else PannedAsAsked(outs, |outs|, c, before.crtcs[c].panning, after.crtcs[c].panning)
    {
      assert PlannedCrtc(outs, read[c], planned[c], c) && read[c].panning == before.crtcs[c].panning;
      assert crtcs[c] == planned[c].(changing := crtcs[c].changing);
      if !NobodyAsks(outs, |outs|, c) {
        var i := SomebodyIsLast(outs, |outs|, c);
      }
    }
  }

  lemma PlanIsReady(outs: seq<Output>, read: seq<Crtc>, planned: seq<Crtc>, modes: seq<Mode>, st: ServerState,
                    width: int, height: int)
    requires Prepared(outs, read, planned, modes, st)
    ensures ValidTargets(outs, planned) && Mirrors(planned, st)
    ensures AllOutputsFit(outs, width, height) && AllUndisturbed(planned, st) ==>
              TargetsFit(outs, planned, st, modes, width, height)
  {
    forall c | 0 <= c < |planned|
      ensures ValidTarget(outs, planned[c]) && MirrorsCrtc(planned[c], st.crtcs[c])
      ensures AllOutputsFit(outs, width, height) && Undisturbed(planned[c], st.crtcs[c]) ==>
                TargetFits(outs, planned[c], st.crtcs[c], modes, width, height)
    {
      assert PlannedCrtc(outs, read[c], planned[c], c) && MirrorsCrtc(read[c], st.crtcs[c]);
      var set' :| TargetSet(outs, |outs|, read[c], set', c)
                  && planned[c] == set'.(changing := planned[c].changing, panning := planned[c].panning);
      TargetOfCoveredFits(outs, modes, planned[c], c, read[c], set', st.crtcs[c], width, height);
    }
  }

  lemma PlannedAfterMarking(outs: seq<Output>, read: Crtc, planned: Crtc, crtc: Crtc, c: nat)
    requires PlannedCrtc(outs, read, planned, c) && crtc == planned.(changing := crtc.changing)
    requires planned.changing ==> crtc.changing
    ensures exists set', marked, panning ::
              TargetSet(outs, |outs|, read, set', c) && crtc == set'.(changing := marked, panning := panning)
    ensures Touched(outs, crtc) ==> crtc.changing
  {
    var set' :| TargetSet(outs, |outs|, read, set', c)
                && planned == set'.(changing := planned.changing, panning := planned.panning);
    assert crtc == set'.(changing := crtc.changing, panning := crtc.panning);
  }
}
