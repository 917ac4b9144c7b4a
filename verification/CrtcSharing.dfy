/** Outputs that share a CRTC: which of them `pick_crtcs` can bring together, and when
    they agree about what the CRTC is to show. */
module CrtcSharing {
  import opened Basics
  import opened Geometry
  import opened Displays
  import opened CrtcSearch
  import opened CrtcPicking

  /** The outputs ask a CRTC to show the same. */
  predicate SameWish(o: Output, p: Output) {
    o.mode == p.mode && o.x == p.x && o.y == p.y && o.rotation == p.rotation && o.transform == p.transform
  }

  /** Some CRTC can drive both outputs. */
  predicate CommonCrtc(o: Output, p: Output) {
    exists x :: x in o.info.crtcs && x in p.info.crtcs
  }

  /** The outputs have a CRTC in common, and one may clone the other or they start on one CRTC. */
  predicate MayMeet(o: Output, p: Output) {
    && CommonCrtc(o, p)
    && (o.xid in p.info.clones || p.xid in o.info.clones || (o.crtc.Some? && o.crtc == p.crtc))
  }

  predicate Share(o: Output, p: Output) {
    Lit(o) && Lit(p) && o.crtc.Some? && o.crtc == p.crtc
  }

  /** Lit outputs that may meet have the same wish. */
  ghost predicate Compatible(outs: seq<Output>) {
    forall i, j | 0 <= i < j < |outs| && Lit(outs[i]) && Lit(outs[j]) && MayMeet(outs[i], outs[j]) ::
      SameWish(outs[i], outs[j])
  }

  ghost predicate SharersAgree(outs: seq<Output>) {
    forall i, j | 0 <= i < j < |outs| && Share(outs[i], outs[j]) :: SameWish(outs[i], outs[j])
  }

  /** Only outputs that might meet at the start share a CRTC now. */
  ghost predicate OnlyMeetings(start: seq<Output>, now: seq<Output>) {
    |start| == |now| && forall i, j | 0 <= i < j < |now| && Share(now[i], now[j]) :: MayMeet(start[i], start[j])
  }

  /** What holds all along the quick way. */
  ghost predicate Meeting(start: seq<Output>, now: seq<Output>, crtcs: seq<Crtc>) {
    OnlyReassigned(start, now, 0) && AllAssignable(now, crtcs) && OnlyMeetings(start, now)
  }

  lemma StartMeets(outs: seq<Output>, crtcs: seq<Crtc>)
    requires AllAssignable(outs, crtcs)
    ensures Meeting(outs, outs, crtcs)
  {
    forall i, j | 0 <= i < j < |outs| && Share(outs[i], outs[j]) ensures MayMeet(outs[i], outs[j]) {
      assert Listed(outs[i], crtcs, outs[i].crtc.value) && Listed(outs[j], crtcs, outs[i].crtc.value);
    }
  }

  /** An output that is given a CRTC which suits it meets only outputs that it may clone. */
  lemma GivingMeets(start: seq<Output>, now: seq<Output>, crtcs: seq<Crtc>, modes: seq<Mode>, i: nat, c: nat)
    requires Meeting(start, now, crtcs)
    requires i < |now| && c < |crtcs| && Suits(now, crtcs, modes, c, i)
    ensures Meeting(start, Given(now, i, c), crtcs)
  {
    var next := Given(now, i, c);
    GivingKeeps(now, crtcs, modes, i, c);
    OnlyReassignedTransitive(start, now, next, 0);
    forall k, j | 0 <= k < j < |next| && Share(next[k], next[j]) ensures MayMeet(start[k], start[j]) {
      if k == i || j == i {
        var other := if k == i then j else k;
        assert CanShare(now, i, other, c);
        assert Listed(now[i], crtcs, c) && Assignable(now[other], crtcs);
        assert crtcs[c].xid in start[i].info.crtcs && crtcs[c].xid in start[other].info.crtcs;
      } else {
        assert Share(now[k], now[j]);
      }
    }
  }

  lemma StepMeets(start: seq<Output>, now: seq<Output>, crtcs: seq<Crtc>, modes: seq<Mode>, i: nat)
    requires Meeting(start, now, crtcs) && i < |now|
    ensures Meeting(start, AfterStep(now, crtcs, modes, i), crtcs)
  {
    var step := StepOf(now, crtcs, modes, i);
    StepFacts(now, crtcs, modes, i);
    if step.Give? {
      GivingMeets(start, now, crtcs, modes, i, step.c);
    }
  }

  lemma {:induction false} QuickMatchMeets(start: seq<Output>, now: seq<Output>, crtcs: seq<Crtc>, modes: seq<Mode>,
                                           i: nat)
    requires Meeting(start, now, crtcs) && i <= |now|
    ensures Meeting(start, QuickMatch(now, crtcs, modes, i).outs, crtcs)
    decreases |now| - i
  {
    if i < |now| && !StepOf(now, crtcs, modes, i).Stop? {
      StepMeets(start, now, crtcs, modes, i);
      QuickMatchMeets(start, AfterStep(now, crtcs, modes, i), crtcs, modes, i + 1);
    }
  }

  /** In an admissible assignment the later of two sharers may clone the earlier one. */
  lemma AdmissibleMeets(outs: seq<Output>, crtcs: seq<Crtc>, modes: seq<Mode>, a: Assignment, i: nat, j: nat)
    requires Admissible(outs, crtcs, modes, a, 0) && i < j < |outs| && a[i].Some? && a[i] == a[j]
    ensures CommonCrtc(outs[i], outs[j]) && outs[i].xid in outs[j].info.clones
  {
    assert Allowed(outs, crtcs, modes, a, i) && Allowed(outs, crtcs, modes, a, j);
    assert crtcs[a[i].value].xid in outs[i].info.crtcs && crtcs[a[i].value].xid in outs[j].info.crtcs;
  }

  /** By either way only outputs that may meet are brought together. */
  lemma PickedMeets(start: seq<Output>, crtcs: seq<Crtc>, modes: seq<Mode>, now: seq<Output>)
    requires Picked(start, crtcs, modes, now)
    ensures OnlyMeetings(start, now)
  {
    var m := QuickMatch(start, crtcs, modes);
    QuickMatchKeeps(start, crtcs, modes, 0);
    if m.happy {
      StartMeets(start, crtcs);
      QuickMatchMeets(start, start, crtcs, modes, 0);
    } else {
      var noted := Noted(m.outs);
      forall i, j | 0 <= i < j < |now| && Share(now[i], now[j]) ensures MayMeet(start[i], start[j]) {
        AdmissibleMeets(noted, crtcs, modes, AssignmentOf(now), i, j);
        assert noted[i].info == start[i].info && noted[j].info == start[j].info && noted[i].xid == start[i].xid;
      }
    }
  }

  /** Compatible outputs agree about the CRTCs they share, whichever way these were picked. */
  lemma CompatibleAgree(start: seq<Output>, crtcs: seq<Crtc>, modes: seq<Mode>, now: seq<Output>)
    requires Picked(start, crtcs, modes, now) && Compatible(start)
    ensures SharersAgree(now)
  {
    PickedGivesAll(start, crtcs, modes, now);
    PickedMeets(start, crtcs, modes, now);
    forall i, j | 0 <= i < j < |now| && Share(now[i], now[j]) ensures SameWish(now[i], now[j]) {
      assert Repicked(start[i], now[i]) && Repicked(start[j], now[j]);
      assert SameWish(start[i], start[j]);
    }
  }

  // ---- Each way of meeting leads to outputs that share a CRTC, whatever they wish ----

  /** The quick way is content to put two outputs on one CRTC; so they agree only if they had one wish. */
  ghost predicate Together(outs: seq<Output>, crtcs: seq<Crtc>, modes: seq<Mode>) {
    && AllAssignable(outs, crtcs) && |outs| == 2
    && var m := QuickMatch(outs, crtcs, modes);
       && m.ok && m.happy && |m.outs| == 2 && Share(m.outs[0], m.outs[1])
       && (SharersAgree(m.outs) <==> SameWish(outs[0], outs[1]))
  }

  /** The step about output `i` leads from one list to the next. */
  ghost predicate StepTo(outs: seq<Output>, crtcs: seq<Crtc>, modes: seq<Mode>, i: nat, next: seq<Output>) {
    && i < |outs| && AllAssignable(outs, crtcs)
    && !StepOf(outs, crtcs, modes, i).Stop? && next == AfterStep(outs, crtcs, modes, i)
  }

  lemma TwoSteps(outs: seq<Output>, crtcs: seq<Crtc>, modes: seq<Mode>, mid: seq<Output>, end: seq<Output>)
    requires |outs| == 2 && StepTo(outs, crtcs, modes, 0, mid) && StepTo(mid, crtcs, modes, 1, end)
    requires Share(end[0], end[1])
    ensures Together(outs, crtcs, modes)
  {
    assert QuickMatch(end, crtcs, modes, 2) == Match(end, true, true);
    assert QuickMatch(mid, crtcs, modes, 1) == Match(end, true, true);
    QuickMatchKeeps(outs, crtcs, modes, 0);
    assert end[0] == outs[0].(crtc := end[0].crtc) && end[1] == outs[1].(crtc := end[1].crtc);
  }

  lemma OneKnown(crtc: Crtc)
    ensures FindCrtc([crtc], crtc.xid) == Some(0)
  {
  }

  /** The later output may clone the earlier one: on an idle CRTC nothing compares their wishes. */
  lemma LaterClones(o: Output, p: Output, crtc: Crtc, modes: seq<Mode>)
    requires Lit(o) && Lit(p) && o.crtc.None? && p.crtc.None? && o.changes != {} && p.changes != {}
    requires o.info.crtcs == [crtc.xid] && p.info.crtcs == [crtc.xid] && o.xid in p.info.clones
    requires crtc.outputs == [] && crtc.info.outputs == []
    ensures Together([o, p], [crtc], modes)
  {
    var outs, crtcs := [o, p], [crtc];
    var mid := [o.(crtc := Some(0)), p];
    var end := [o.(crtc := Some(0)), p.(crtc := Some(0))];
    OneKnown(crtc);
    assert outs[0] == o && outs[1] == p && mid[1] == p;
    assert Suits(outs, crtcs, modes, 0, 0) && Suits(mid, crtcs, modes, 0, 1);
    assert mid == Given(outs, 0, 0) && end == Given(mid, 1, 0);
    TwoSteps(outs, crtcs, modes, mid, end);
  }

  /** The CRTC shows to output `p` what `o`, not yet on it, asks for. */
  predicate ShowsWishOf(o: Output, p: Output, crtc: Crtc, modes: seq<Mode>) {
    && crtc.outputs == [] && crtc.info.outputs == [p.xid] && FindMode(modes, crtc.info.mode) == o.mode
    && crtc.info.x == o.x && crtc.info.y == o.y && crtc.info.rotation == o.rotation
  }

  /** The earlier output may clone the later one: it is compared with what the CRTC showed
      before, while the later output, which is on it, is about to change that. */
  lemma EarlierClones(o: Output, p: Output, crtc: Crtc, modes: seq<Mode>)
    requires Lit(o) && Lit(p) && o.crtc.None? && p.crtc == Some(0) && o.changes != {} && p.changes != {}
    requires o.info.crtcs == [crtc.xid] && p.info.crtcs == [crtc.xid] && p.xid in o.info.clones && o.xid != p.xid
    requires ShowsWishOf(o, p, crtc, modes)
    ensures Together([o, p], [crtc], modes)
  {
    var outs, crtcs := [o, p], [crtc];
    var mid := [o.(crtc := Some(0)), p];
    OneKnown(crtc);
    assert outs[0] == o && outs[1] == p && mid[0].xid == o.xid && mid[1] == p;
    assert Suits(outs, crtcs, modes, 0, 0);
    assert FindXid(mid, p.xid) == Some(1);
    assert mid == Given(outs, 0, 0);
    assert StepOf(mid, crtcs, modes, 1) == Skip;
    TwoSteps(outs, crtcs, modes, mid, mid);
  }

  /** The same in the other order of the list. */
  lemma NewcomerClones(p: Output, o: Output, crtc: Crtc, modes: seq<Mode>)
    requires Lit(o) && Lit(p) && o.crtc.None? && p.crtc == Some(0) && o.changes != {} && p.changes != {}
    requires o.info.crtcs == [crtc.xid] && p.info.crtcs == [crtc.xid] && p.xid in o.info.clones
    requires ShowsWishOf(o, p, crtc, modes)
    ensures Together([p, o], [crtc], modes)
  {
    var outs, crtcs := [p, o], [crtc];
    var end := [p, o.(crtc := Some(0))];
    OneKnown(crtc);
    assert outs[0] == p && outs[1] == o;
    assert FindXid(outs, p.xid) == Some(0);
    assert StepOf(outs, crtcs, modes, 0) == Skip;
    assert Suits(outs, crtcs, modes, 0, 1);
    assert end == Given(outs, 1, 0);
    TwoSteps(outs, crtcs, modes, outs, end);
  }

  /** Both outputs were put on one idle CRTC by request: nothing compares them, clones or not. */
  lemma RequestedTogether(o: Output, p: Output, crtc: Crtc, modes: seq<Mode>)
    requires Lit(o) && Lit(p) && o.crtc == Some(0) && p.crtc == Some(0) && o.changes != {} && p.changes != {}
    requires o.info.crtcs == [crtc.xid] && p.info.crtcs == [crtc.xid] && crtc.info.outputs == []
    ensures Together([o, p], [crtc], modes)
  {
    var outs, crtcs := [o, p], [crtc];
    assert outs[0] == o && outs[1] == p;
    assert StepOf(outs, crtcs, modes, 0) == Skip && StepOf(outs, crtcs, modes, 1) == Skip;
    TwoSteps(outs, crtcs, modes, outs, outs);
  }
}
