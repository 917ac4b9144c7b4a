/** What it means that a CRTC shows what outputs asked for, and when all of them get it. */
module Showing {
  import opened Basics
  import opened Geometry
  import opened Displays
  import opened CrtcSearch
  import opened CrtcPicking
  import opened CrtcSharing
  import opened Loading
  import opened Server
  import Positions
  import Layouts

  ghost predicate DistinctModes(modes: seq<Mode>) {
    && (forall m | m in modes :: m.id != 0)
    && forall m, n | m in modes && n in modes && m.id == n.id :: m == n
  }

  ghost predicate UsedBy(outs: seq<Output>, c: nat, xid: nat) {
    exists i :: 0 <= i < |outs| && Lit(outs[i]) && outs[i].crtc == Some(c) && outs[i].xid == xid
  }

  /** The CRTC runs what the output asked for. */
  predicate RunsWish(o: Output, st: CrtcState) {
    && o.mode.Some? && st.config.mode == o.mode.value.id
    && st.config.x == o.x && st.config.y == o.y && st.config.rotation == o.rotation
    && st.committed == o.transform
  }

  /** The CRTC runs what its first output asked for, on exactly the outputs assigned to it;
      without outputs it is off. */
  ghost predicate Shows(outs: seq<Output>, c: nat, st: CrtcState) {
    var users := Users(outs, c, |outs|);
    if users == [] then st.config.mode == 0
    else RunsWish(outs[users[0]], st) && forall u :: u in st.config.outputs <==> UsedBy(outs, c, u)
  }

  /** Every lit output hangs on a CRTC that runs what the output asked for. */
  ghost predicate AllAsAsked(outs: seq<Output>, sts: seq<CrtcState>) {
    forall i | 0 <= i < |outs| && Lit(outs[i]) :: AsAsked(outs[i], sts)
  }

  predicate AsAsked(o: Output, sts: seq<CrtcState>) {
    && o.crtc.Some? && o.crtc.value < |sts|
    && RunsWish(o, sts[o.crtc.value]) && o.xid in sts[o.crtc.value].config.outputs
  }

  /** Each CRTC runs what its first output asked for. So every output gets what it asked
      for exactly if outputs that share a CRTC asked for the same. */
  lemma AsAskedMeansAgreement(outs: seq<Output>, modes: seq<Mode>, sts: seq<CrtcState>)
    requires DistinctModes(modes) && forall i | 0 <= i < |outs| && Lit(outs[i]) :: outs[i].mode.value in modes
    requires forall i | 0 <= i < |outs| && Lit(outs[i]) :: outs[i].crtc.Some? && outs[i].crtc.value < |sts|
    requires forall c | 0 <= c < |sts| :: Shows(outs, c, sts[c])
    ensures AllAsAsked(outs, sts) <==> SharersAgree(outs)
  {
    if AllAsAsked(outs, sts) {
      forall i, j | 0 <= i < j < |outs| && Share(outs[i], outs[j]) ensures SameWish(outs[i], outs[j]) {
        assert AsAsked(outs[i], sts) && AsAsked(outs[j], sts);
      }
    }
    if SharersAgree(outs) {
      forall i | 0 <= i < |outs| && Lit(outs[i]) ensures AsAsked(outs[i], sts) {
        ShownToSharer(outs, sts, i);
      }
    }
  }

  lemma ShownToSharer(outs: seq<Output>, sts: seq<CrtcState>, i: nat)
    requires i < |outs| && Lit(outs[i]) && outs[i].crtc.Some? && outs[i].crtc.value < |sts|
    requires Shows(outs, outs[i].crtc.value, sts[outs[i].crtc.value]) && SharersAgree(outs)
    ensures AsAsked(outs[i], sts)
  {
    var c := outs[i].crtc.value;
    var first := Users(outs, c, |outs|)[0];
    assert i in Users(outs, c, |outs|) && UsedBy(outs, c, outs[i].xid);
    assert first != i ==> Share(outs[first], outs[i]) && Share(outs[i], outs[first]);
  }

  // ---- When outputs that may share a CRTC will agree, as far as can be told before placement ----

  /** The outputs will end up in the same place: they have the same fixed one, or one is placed on the other. */
  ghost predicate PlacedTogether(outs: seq<Output>, i: nat, j: nat)
    requires i < |outs| && j < |outs|
  {
    || (!Positions.Related(outs[i]) && !Positions.Related(outs[j]) && outs[i].x == outs[j].x && outs[i].y == outs[j].y)
    || (Positions.Edge(outs, i, j) && outs[i].relation == SameAs)
    || (Positions.Edge(outs, j, i) && outs[j].relation == SameAs)
  }

  ghost predicate InHarmony(outs: seq<Output>, i: nat, j: nat)
    requires i < |outs| && j < |outs|
  {
    && outs[i].mode == outs[j].mode && outs[i].rotation == outs[j].rotation && outs[i].transform == outs[j].transform
    && PlacedTogether(outs, i, j)
  }

  lemma HarmonyIsAgreement(start: seq<Output>, positioned: seq<Output>, i: nat, j: nat)
    requires Positions.Solves(start, positioned) && i < |start| && j < |start|
    requires Lit(start[i]) && Lit(start[j]) && InHarmony(start, i, j)
    ensures |positioned| == |start| && SameWish(positioned[i], positioned[j])
  {
    var dx, dy := Layouts.RelationsHold(start, positioned);
    assert Layouts.SameButPlace(start[i], positioned[i]) && Layouts.SameButPlace(start[j], positioned[j]);
    if Positions.Edge(start, i, j) {
      assert Layouts.RelationHolds(positioned[i], positioned[j]);
    }
    if Positions.Edge(start, j, i) {
      assert Layouts.RelationHolds(positioned[j], positioned[i]);
    }
  }

  /** Lit outputs that may meet ask for the same picture in the same place. */
  ghost predicate Harmonious(outs: seq<Output>) {
    forall i: nat, j: nat | i < j < |outs| && Lit(outs[i]) && Lit(outs[j]) && MayMeet(outs[i], outs[j]) ::
      InHarmony(outs, i, j)
  }

  lemma HarmoniousIsCompatible(start: seq<Output>, positioned: seq<Output>)
    requires Positions.Solves(start, positioned) && Harmonious(start)
    ensures Compatible(positioned)
  {
    var dx, dy := Layouts.RelationsHold(start, positioned);
    forall i: nat, j: nat | i < j < |positioned| && Lit(positioned[i]) && Lit(positioned[j])
                            && MayMeet(positioned[i], positioned[j])
      ensures SameWish(positioned[i], positioned[j])
    {
      assert Layouts.SameButPlace(start[i], positioned[i]) && Layouts.SameButPlace(start[j], positioned[j]);
      assert MayMeet(start[i], start[j]);
      HarmonyIsAgreement(start, positioned, i, j);
    }
  }
}
