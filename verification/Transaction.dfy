/** Applying the new configuration: `apply`, `crtc_apply`, `screen_apply`. */
module Transaction {
  import opened Basics
  import opened Geometry
  import opened Displays
  import opened ScreenSize
  import opened Server
  import opened Undoing

  function Xids(outs: seq<Output>, indices: seq<nat>): (r: seq<nat>)
    requires forall e | 0 <= e < |indices| :: indices[e] < |outs|
    ensures |r| == |indices|
  {
    seq(|indices|, e requires 0 <= e < |indices| => outs[indices[e]].xid)
  }

  ghost predicate ValidTarget(outs: seq<Output>, crtc: Crtc) {
    && (forall e | 0 <= e < |crtc.outputs| :: crtc.outputs[e] < |outs|)
    && (crtc.mode.Some? ==> crtc.outputs != [] && crtc.mode.value.id != 0)
  }

  function TargetConfig(outs: seq<Output>, crtc: Crtc): Config
    requires ValidTarget(outs, crtc) && crtc.mode.Some?
  {
    Config(crtc.mode.value.id, crtc.x, crtc.y, crtc.rotation, Xids(outs, crtc.outputs))
  }

  /** The whole target of a CRTC; without a panning area of its own it keeps the one in effect. */
  function Target(outs: seq<Output>, crtc: Crtc, st: CrtcState): CrtcState
    requires ValidTarget(outs, crtc) && crtc.mode.Some?
  {
    var transform := Taking(crtc, crtc.pending, st);
    var panning := if crtc.panning.Some? then crtc.panning else st.panning;
    CrtcState(TargetConfig(outs, crtc), transform, transform, panning)
  }

  /** A CRTC gets the transform that it is to have exactly if no foreign one gets in the way. */
  lemma TargetIfUndisturbed(outs: seq<Output>, crtc: Crtc, st: CrtcState)
    requires ValidTarget(outs, crtc) && crtc.mode.Some? && MirrorsCrtc(crtc, st)
    ensures Target(outs, crtc, st).committed == crtc.pending <==> Undisturbed(crtc, st)
  {
  }

  ghost predicate TargetFits(outs: seq<Output>, crtc: Crtc, st: CrtcState, modes: seq<Mode>, width: int, height: int)
    requires ValidTarget(outs, crtc)
  {
    crtc.mode.Some? ==> CrtcFits(Target(outs, crtc, st), modes, width, height)
  }

  /** Nothing is to be done about the CRTC: it is not marked, and if it is on, it is wanted and fits. */
  ghost predicate Quiet(crtc: Crtc, st: CrtcState, modes: seq<Mode>, width: int, height: int) {
    !crtc.changing && CrtcFits(st, modes, width, height) && (st.config.mode != 0 ==> crtc.mode.Some?)
  }

  /** No quiet CRTC was ever touched. */
  ghost predicate QuietLeftAlone(crtcs: seq<Crtc>, st: ServerState, modes: seq<Mode>, width: int, height: int,
                                 log: seq<Reply>, from: nat) {
    && |crtcs| == |st.crtcs|
    && forall c | 0 <= c < |crtcs| && Quiet(crtcs[c], st.crtcs[c], modes, width, height) ::
         LeftAlone(log, from, c, st.crtcs[c])
  }

  lemma QuietExtended(crtcs: seq<Crtc>, st: ServerState, modes: seq<Mode>, width: int, height: int,
                      a: seq<Reply>, b: seq<Reply>, from: nat)
    requires a <= b && from <= |a| && QuietLeftAlone(crtcs, st, modes, width, height, a, from)
    requires forall c | 0 <= c < |crtcs| && Quiet(crtcs[c], st.crtcs[c], modes, width, height) ::
               LeftAlone(b, |a|, c, st.crtcs[c])
    ensures QuietLeftAlone(crtcs, st, modes, width, height, b, from)
  {
    forall c | 0 <= c < |crtcs| && Quiet(crtcs[c], st.crtcs[c], modes, width, height)
      ensures LeftAlone(b, from, c, st.crtcs[c])
    {
      AloneExtended(a, b, from, c, st.crtcs[c]);
    }
  }

  /** The modes that are shown are known. */
  ghost predicate ModesKnown(st: ServerState, modes: seq<Mode>) {
    forall c | 0 <= c < |st.crtcs| && st.crtcs[c].config.mode != 0 :: FindMode(modes, st.crtcs[c].config.mode).Some?
  }

  /** What the first loop of `apply` does to one CRTC. */
  ghost predicate MadeRoom(modes: seq<Mode>, width: int, height: int, crtc: Crtc, crtc': Crtc, st: CrtcState,
                           st': CrtcState) {
    if st.config.mode == 0 || (crtc.mode.Some? && CrtcFits(st, modes, width, height)) then
      crtc' == crtc && st' == st
    else
      && crtc' == crtc.(changing := crtc.changing || crtc.mode.Some?)
      && st' == CrtcState(OFF, st.pending, st.pending, st.panning)
  }

  /** One turn of the first loop of `apply`. */
  method MakeRoom(d: Display, s: Server, c: nat) returns (ok: bool)
    requires c < d.crtcs.Length == |s.state.crtcs| && MirrorsCrtc(d.crtcs[c], s.state.crtcs[c])
    modifies d.crtcs, s
    ensures |s.state.crtcs| == d.crtcs.Length
    ensures ok ==> MadeRoom(s.modes, d.fbWidth, d.fbHeight, old(d.crtcs[c]), d.crtcs[c],
                            old(s.state).crtcs[c], s.state.crtcs[c])
    ensures d.crtcs[c] == old(d.crtcs[c]).(changing := old(d.crtcs[c]).changing || d.crtcs[c].changing)
    ensures forall k | 0 <= k < d.crtcs.Length && k != c :: d.crtcs[k] == old(d.crtcs[k])
    ensures s.state == old(s.state) || s.state == Configured(old(s.state), c, OFF)
    ensures old(s.state).crtcs[c].config.mode == 0 ==> ok && s.asked == old(s.asked)
    ensures old(s.state).crtcs[c].config.mode != 0 && old(d.crtcs[c]).mode.None? ==>
              s.asked == old(s.asked) + 1 && (ok <==> s.answers(old(s.asked)))
    ensures old(s.log) <= s.log
    ensures AllAccepted(s.log, |old(s.log)|) || (!ok && FailsLast(s.log, |old(s.log)|))
    ensures !ok ==> FailsLast(s.log, |old(s.log)|) || !ModesKnown(old(s.state), s.modes)
    ensures OthersLeftAlone(s.log, |old(s.log)|, c, old(s.state))
    ensures Quiet(old(d.crtcs[c]), old(s.state).crtcs[c], s.modes, d.fbWidth, d.fbHeight) ==> s.log == old(s.log)
    ensures StateFits(old(s.state), s.modes) ==> AlwaysFit(s.log, |old(s.log)|, s.modes) && StateFits(s.state, s.modes)
  {
    var crtc := d.crtcs[c];
    if crtc.info.mode == 0 {
      return true;
    }
    if crtc.mode.Some? {
      // what it shows now has to fit the new size for as long as it stays on
      var oldMode := FindMode(s.modes, crtc.info.mode);
      if oldMode.None? {
        return false;
      }
      var bounds := ModeGeometry(oldMode.value, crtc.info.rotation, crtc.current.matrix);
      var x := crtc.info.x + bounds.x1;
      var y := crtc.info.y + bounds.y1;
      var w := bounds.x2 - bounds.x1;
      var h := bounds.y2 - bounds.y1;
      if x + w <= d.fbWidth && y + h <= d.fbHeight {
        return true;
      }
      d.crtcs[c] := crtc.(changing := true);
    }
    ok := CrtcDisable(s, c);
  }

  /** The first `c` CRTCs have been looked at. */
  ghost predicate RoomMade(modes: seq<Mode>, width: int, height: int, crtcs: seq<Crtc>, crtcs': seq<Crtc>,
                           st: ServerState, st': ServerState, c: nat)
  {
    && |crtcs| == |crtcs'| == |st.crtcs| == |st'.crtcs| && c <= |crtcs| && st'.screen == st.screen
    && (forall k | 0 <= k < c :: MadeRoom(modes, width, height, crtcs[k], crtcs'[k], st.crtcs[k], st'.crtcs[k]))
    && (forall k | c <= k < |crtcs| :: crtcs'[k] == crtcs[k] && st'.crtcs[k] == st.crtcs[k])
  }

  ghost predicate OnlyMarked(crtcs: seq<Crtc>, crtcs': seq<Crtc>) {
    && |crtcs| == |crtcs'|
    && forall k | 0 <= k < |crtcs| ::
         crtcs'[k] == crtcs[k].(changing := crtcs[k].changing || crtcs'[k].changing)
  }

  lemma RoomMadeKeepsPending(modes: seq<Mode>, width: int, height: int, crtcs: seq<Crtc>, crtcs': seq<Crtc>,
                             st: ServerState, st': ServerState, c: nat)
    requires RoomMade(modes, width, height, crtcs, crtcs', st, st', c)
    ensures OnlyMarked(crtcs, crtcs')
    ensures forall k | 0 <= k < |crtcs| :: SamePending(st.crtcs[k], st'.crtcs[k])
  {
    forall k | 0 <= k < |crtcs|
      ensures crtcs'[k] == crtcs[k].(changing := crtcs[k].changing || crtcs'[k].changing)
      ensures SamePending(st.crtcs[k], st'.crtcs[k])
    {
      if k < c { assert MadeRoom(modes, width, height, crtcs[k], crtcs'[k], st.crtcs[k], st'.crtcs[k]); }
    }
  }

  lemma RoomMadeNext(modes: seq<Mode>, width: int, height: int, crtcs: seq<Crtc>, marked: seq<Crtc>, crtcs': seq<Crtc>,
                     st: ServerState, now: ServerState, st': ServerState, c: nat)
    requires RoomMade(modes, width, height, crtcs, marked, st, now, c) && c < |crtcs|
    requires |crtcs'| == |crtcs| == |st'.crtcs| && st'.screen == now.screen
    requires forall k | 0 <= k < |crtcs| && k != c :: crtcs'[k] == marked[k] && st'.crtcs[k] == now.crtcs[k]
    requires MadeRoom(modes, width, height, marked[c], crtcs'[c], now.crtcs[c], st'.crtcs[c])
    ensures RoomMade(modes, width, height, crtcs, crtcs', st, st', c + 1)
  {
  }

  /** What holds while room is made, as long as nothing is refused. */
  ghost predicate MakingRoom(d: Display, s: Server, crtcs: seq<Crtc>, st: ServerState, log: seq<Reply>, c: nat)
    reads d, d.crtcs, s
  {
    && RoomMade(s.modes, d.fbWidth, d.fbHeight, crtcs, d.crtcs[..], st, s.state, c)
    && log <= s.log && AllAccepted(s.log, |log|)
    && QuietLeftAlone(crtcs, st, s.modes, d.fbWidth, d.fbHeight, s.log, |log|)
    && (StateFits(st, s.modes) ==> AlwaysFit(s.log, |log|, s.modes) && StateFits(s.state, s.modes))
  }

  /** What holds whether or not something was refused. */
  ghost predicate RoomLeft(d: Display, s: Server, crtcs: seq<Crtc>, st: ServerState, log: seq<Reply>)
    reads d, d.crtcs, s
  {
    && OnlyMarked(crtcs, d.crtcs[..]) && PendingStays(d.crtcs[..], st, s.state) && s.state.screen == st.screen
    && log <= s.log && (AllAccepted(s.log, |log|) || FailsLast(s.log, |log|))
    && QuietLeftAlone(crtcs, st, s.modes, d.fbWidth, d.fbHeight, s.log, |log|)
    && (StateFits(st, s.modes) ==> AlwaysFit(s.log, |log|, s.modes) && StateFits(s.state, s.modes))
  }

  lemma RoomKeepsModes(modes: seq<Mode>, width: int, height: int, crtcs: seq<Crtc>, marked: seq<Crtc>,
                       st: ServerState, now: ServerState, c: nat)
    requires RoomMade(modes, width, height, crtcs, marked, st, now, c) && ModesKnown(st, modes)
    ensures ModesKnown(now, modes)
  {
    forall k | 0 <= k < |now.crtcs| && now.crtcs[k].config.mode != 0
      ensures FindMode(modes, now.crtcs[k].config.mode).Some?
    {
      if k < c { assert MadeRoom(modes, width, height, crtcs[k], marked[k], st.crtcs[k], now.crtcs[k]); }
    }
  }

  /** Whether or not the turn about CRTC `c` succeeds, only marks are made, and nothing pending changes. */
  lemma RoomIsLeft(modes: seq<Mode>, width: int, height: int, crtcs: seq<Crtc>, marked: seq<Crtc>, crtcs': seq<Crtc>,
                   st: ServerState, now: ServerState, st': ServerState, c: nat)
    requires RoomMade(modes, width, height, crtcs, marked, st, now, c) && c < |crtcs| == |crtcs'|
    requires crtcs'[c] == marked[c].(changing := marked[c].changing || crtcs'[c].changing)
    requires forall k | 0 <= k < |crtcs| && k != c :: crtcs'[k] == marked[k]
    requires st' == now || st' == Configured(now, c, OFF)
    ensures OnlyMarked(crtcs, crtcs') && PendingStays(crtcs', st, st')
  {
    RoomMadeKeepsPending(modes, width, height, crtcs, marked, st, now, c);
  }

  /** A turn about CRTC `c` touches no quiet one. */
  lemma RoomLeavesQuiet(modes: seq<Mode>, width: int, height: int, crtcs: seq<Crtc>, marked: seq<Crtc>,
                        st: ServerState, now: ServerState, c: nat, a: seq<Reply>, b: seq<Reply>, from: nat)
    requires RoomMade(modes, width, height, crtcs, marked, st, now, c) && c < |crtcs|
    requires a <= b && from <= |a| && QuietLeftAlone(crtcs, st, modes, width, height, a, from)
    requires OthersLeftAlone(b, |a|, c, now)
    requires Quiet(marked[c], now.crtcs[c], modes, width, height) ==> b == a
    ensures QuietLeftAlone(crtcs, st, modes, width, height, b, from)
  {
    forall k | 0 <= k < |crtcs| && Quiet(crtcs[k], st.crtcs[k], modes, width, height)
      ensures LeftAlone(b, |a|, k, st.crtcs[k])
    {
      if k < c { assert MadeRoom(modes, width, height, crtcs[k], marked[k], st.crtcs[k], now.crtcs[k]); }
      if k != c { assert LeftAlone(b, |a|, k, now.crtcs[k]); }
    }
    QuietExtended(crtcs, st, modes, width, height, a, b, from);
  }

  method MakeRoomNext(d: Display, s: Server, c: nat, ghost crtcs: seq<Crtc>, ghost st: ServerState,
                      ghost log: seq<Reply>) returns (ok: bool)
    requires MakingRoom(d, s, crtcs, st, log, c) && c < d.crtcs.Length && Mirrors(crtcs, st)
    modifies d.crtcs, s
    ensures if ok then MakingRoom(d, s, crtcs, st, log, c + 1) else RoomLeft(d, s, crtcs, st, log)
    ensures !ok && ModesKnown(st, s.modes) ==> FailsLast(s.log, |log|)
  {
    ghost var sofar, before, marked := s.log, s.state, d.crtcs[..];
    assert MirrorsCrtc(crtcs[c], st.crtcs[c]);
    assert ModesKnown(st, s.modes) ==> ModesKnown(before, s.modes) by {
      if ModesKnown(st, s.modes) {
        RoomKeepsModes(s.modes, d.fbWidth, d.fbHeight, crtcs, marked, st, before, c);
      }
    }
    ok := MakeRoom(d, s, c);
    assert QuietLeftAlone(crtcs, st, s.modes, d.fbWidth, d.fbHeight, s.log, |log|) by {
      RoomLeavesQuiet(s.modes, d.fbWidth, d.fbHeight, crtcs, marked, st, before, c, sofar, s.log, |log|);
    }
    assert StateFits(st, s.modes) ==> AlwaysFit(s.log, |log|, s.modes) by {
      LogExtended(sofar, s.log, |log|, s.modes);
    }
    if ok {
      assert AllAccepted(s.log, |log|) by {
        LogExtended(sofar, s.log, |log|, s.modes);
      }
      assert RoomMade(s.modes, d.fbWidth, d.fbHeight, crtcs, d.crtcs[..], st, s.state, c + 1) by {
        RoomMadeNext(s.modes, d.fbWidth, d.fbHeight, crtcs, marked, d.crtcs[..], st, before, s.state, c);
      }
    } else {
      assert OnlyMarked(crtcs, d.crtcs[..]) && PendingStays(d.crtcs[..], st, s.state) by {
        RoomIsLeft(s.modes, d.fbWidth, d.fbHeight, crtcs, marked, d.crtcs[..], st, before, s.state, c);
      }
      assert AllAccepted(s.log, |log|) || FailsLast(s.log, |log|) by {
        FailureIsLast(sofar, s.log, |log|);
      }
      assert ModesKnown(st, s.modes) ==> FailsLast(s.log, |log|) by {
        FailureIsLast(sofar, s.log, |log|);
      }
    }
  }

  /** Turns off the CRTCs that are to be disabled or do not fit the new size. */
  method DisableUnfit(d: Display, s: Server) returns (ok: bool)
    requires Mirrors(d.crtcs[..], s.state)
    modifies d.crtcs, s
    ensures RoomLeft(d, s, old(d.crtcs[..]), old(s.state), old(s.log))
    ensures ok ==> MakingRoom(d, s, old(d.crtcs[..]), old(s.state), old(s.log), d.crtcs.Length)
    ensures !ok && ModesKnown(old(s.state), s.modes) ==> FailsLast(s.log, |old(s.log)|)
  {
    ghost var crtcs, st, log := d.crtcs[..], s.state, s.log;
    var c := 0;
    while c < d.crtcs.Length
      invariant c <= d.crtcs.Length && MakingRoom(d, s, crtcs, st, log, c)
      decreases d.crtcs.Length - c
    {
      ok := MakeRoomNext(d, s, c, crtcs, st, log);
      if !ok {
        return;
      }
      c := c + 1;
    }
    RoomMadeKeepsPending(s.modes, d.fbWidth, d.fbHeight, crtcs, d.crtcs[..], st, s.state, c);
    ok := true;
  }

  lemma FailureIsLast(a: seq<Reply>, b: seq<Reply>, from: nat)
    requires a <= b && from <= |a| && AllAccepted(a, from)
    ensures AllAccepted(b, |a|) ==> AllAccepted(b, from)
    ensures FailsLast(b, |a|) ==> FailsLast(b, from)
  {
    assert forall k | 0 <= k < |a| :: a[k] == b[k];
  }

  /** After the first loop every enabled CRTC fits the new size. */
  lemma RoomMeansFit(modes: seq<Mode>, width: int, height: int, crtc: Crtc, crtc': Crtc, st: CrtcState, st': CrtcState)
    requires MadeRoom(modes, width, height, crtc, crtc', st, st')
    ensures CrtcFits(st', modes, width, height)
  {
  }

  /** Sends the transform, when it differs from the one in effect. */
  method SendTransform(s: Server, c: nat, current: Transform, pending: Transform)
    requires c < |s.state.crtcs|
    modifies s
    ensures s.state == if current == pending then old(s.state) else TransformSet(old(s.state), c, pending)
    ensures s.asked == old(s.asked) + if current == pending then 0 else 1
    ensures OthersLeftAlone(s.log, |old(s.log)|, c, old(s.state))
    ensures old(s.log) <= s.log && AllAccepted(s.log, |old(s.log)|)
    ensures StateFits(old(s.state), s.modes) ==> AlwaysFit(s.log, |old(s.log)|, s.modes) && StateFits(s.state, s.modes)
  {
    if StateFits(s.state, s.modes) {
      TransformSetFits(s.state, s.modes, c, pending);
    }
    if current != pending {
      s.SetCrtcTransform(c, pending);
    }
  }

  /** Sends a panning area, if there is one. */
  method SendPanning(s: Server, c: nat, panning: Option<Panning>) returns (ok: bool)
    requires c < |s.state.crtcs|
    modifies s
    ensures s.state == if ok && panning.Some? then PanningSet(old(s.state), c, panning) else old(s.state)
    ensures ok <==> (panning.Some? ==> s.answers(old(s.asked)))
    ensures s.asked == old(s.asked) + if panning.Some? then 1 else 0
    ensures OthersLeftAlone(s.log, |old(s.log)|, c, old(s.state))
    ensures old(s.log) <= s.log
    ensures if ok then AllAccepted(s.log, |old(s.log)|) else FailsLast(s.log, |old(s.log)|)
    ensures StateFits(old(s.state), s.modes) ==> AlwaysFit(s.log, |old(s.log)|, s.modes) && StateFits(s.state, s.modes)
  {
    if StateFits(s.state, s.modes) {
      PanningSetFits(s.state, s.modes, c, panning);
    }
    ok := true;
    if panning.Some? {
      ok := s.SetPanning(c, panning);
    }
  }

  /** Whether the server is willing to configure the CRTC, from its n-th request on. */
  predicate Configures(crtc: Crtc, answers: nat -> bool, n: nat) {
    answers(n + if crtc.current == crtc.pending then 0 else 1)
  }

  /** Whether it is willing to set the panning area then. */
  predicate Pans(crtc: Crtc, answers: nat -> bool, n: nat) {
    crtc.panning.Some? ==> answers(n + if crtc.current == crtc.pending then 1 else 2)
  }

  /** How many requests it takes. */
  function ApplyRequests(crtc: Crtc): nat {
    (if crtc.current == crtc.pending then 1 else 2) + (if crtc.panning.Some? then 1 else 0)
  }

  method CrtcApply(d: Display, s: Server, c: nat) returns (ok: bool)
    requires c < d.crtcs.Length == |s.state.crtcs| && ValidTarget(d.outputs[..], d.crtcs[c])
    modifies s
    ensures s.state.screen == old(s.state).screen && |s.state.crtcs| == d.crtcs.Length
    ensures forall k | 0 <= k < d.crtcs.Length && k != c :: s.state.crtcs[k] == old(s.state).crtcs[k]
    ensures d.crtcs[c].current == d.crtcs[c].pending ==> SamePending(old(s.state).crtcs[c], s.state.crtcs[c])
    ensures !d.crtcs[c].changing || d.crtcs[c].mode.None? ==> ok && s.state == old(s.state) && s.log == old(s.log)
    ensures OthersLeftAlone(s.log, |old(s.log)|, c, old(s.state))
    ensures d.crtcs[c].changing && d.crtcs[c].mode.Some? ==>
              && (ok <==> Configures(d.crtcs[c], s.answers, old(s.asked)) && Pans(d.crtcs[c], s.answers, old(s.asked)))
              && (Configures(d.crtcs[c], s.answers, old(s.asked)) ==>
                    s.asked == old(s.asked) + ApplyRequests(d.crtcs[c]) &&
                    (var target := Target(d.outputs[..], d.crtcs[c], old(s.state).crtcs[c]);
                     s.state.crtcs[c] == if ok then target else target.(panning := old(s.state).crtcs[c].panning)))
    ensures old(s.log) <= s.log
    ensures if ok then AllAccepted(s.log, |old(s.log)|) else FailsLast(s.log, |old(s.log)|)
    ensures StateFits(old(s.state), s.modes)
            && TargetFits(d.outputs[..], d.crtcs[c], old(s.state).crtcs[c], s.modes, s.state.screen.width,
                          s.state.screen.height) ==>
              AlwaysFit(s.log, |old(s.log)|, s.modes) && StateFits(s.state, s.modes)
  {
    ghost var start, before := s.log, s.state;
    var crtc := d.crtcs[c];
    if !crtc.changing || crtc.mode.None? {
      return true;
    }
    ok := SendConfig(s, c, crtc, TargetConfig(d.outputs[..], crtc));
    if ok {
      ghost var configured, now := s.log, s.state;
      ok := SendPanning(s, c, crtc.panning);
      LogExtended(configured, s.log, |start|, s.modes);
      OthersExtended(configured, s.log, |start|, c, before, now);
      FailureIsLast(configured, s.log, |start|);
    }
  }

  lemma OthersExtended(a: seq<Reply>, b: seq<Reply>, from: nat, c: nat, st: ServerState, now: ServerState)
    requires a <= b && from <= |a| && OthersLeftAlone(a, from, c, st) && OthersLeftAlone(b, |a|, c, now)
    requires |now.crtcs| == |st.crtcs| && forall k | 0 <= k < |st.crtcs| && k != c :: now.crtcs[k] == st.crtcs[k]
    ensures OthersLeftAlone(b, from, c, st)
  {
    forall e | 0 <= e < |st.crtcs| && e != c ensures LeftAlone(b, from, e, st.crtcs[e]) {
      assert LeftAlone(b, |a|, e, now.crtcs[e]);
      AloneExtended(a, b, from, e, st.crtcs[e]);
    }
  }

  /** Sends the transform, if need be, and the configuration. */
  method SendConfig(s: Server, c: nat, crtc: Crtc, config: Config) returns (ok: bool)
    requires c < |s.state.crtcs| && Matches(config)
    modifies s
    ensures s.state.screen == old(s.state).screen && |s.state.crtcs| == |old(s.state).crtcs|
    ensures forall k | 0 <= k < |s.state.crtcs| && k != c :: s.state.crtcs[k] == old(s.state).crtcs[k]
    ensures crtc.current == crtc.pending ==> SamePending(old(s.state).crtcs[c], s.state.crtcs[c])
    ensures ok <==> Configures(crtc, s.answers, old(s.asked))
    ensures s.asked == old(s.asked) + if crtc.current == crtc.pending then 1 else 2
    ensures var transform := Taking(crtc, crtc.pending, old(s.state).crtcs[c]);
            var target := CrtcState(config, transform, transform, old(s.state).crtcs[c].panning);
            && (ok ==> s.state.crtcs[c] == target)
            && (StateFits(old(s.state), s.modes)
                && CrtcFits(target, s.modes, s.state.screen.width, s.state.screen.height) ==>
                  AlwaysFit(s.log, |old(s.log)|, s.modes) && StateFits(s.state, s.modes))
    ensures OthersLeftAlone(s.log, |old(s.log)|, c, old(s.state))
    ensures old(s.log) <= s.log
    ensures if ok then AllAccepted(s.log, |old(s.log)|) else FailsLast(s.log, |old(s.log)|)
  {
    ghost var start, before := s.log, s.state;
    SendTransform(s, c, crtc.current, crtc.pending);
    ghost var st, sent := s.state, s.log;
    ok := s.SetCrtcConfig(c, config);
    assert s.log[|sent|] == Reply(ok, s.state);
    assert OthersLeftAlone(s.log, |start|, c, before) by {
      OthersExtended(sent, s.log, |start|, c, before, st);
    }
    LogExtended(sent, s.log, |start|, s.modes);
    if ok && StateFits(st, s.modes) && CrtcFits(s.state.crtcs[c], s.modes, st.screen.width, st.screen.height) {
      ConfiguredFits(st, s.modes, c, config);
    }
  }

  /** What a successful `apply` leaves behind for one CRTC. */
  ghost predicate TargetReached(outs: seq<Output>, crtc: Crtc, before: CrtcState, after: CrtcState)
    requires ValidTarget(outs, crtc)
  {
    if crtc.mode.None? then
      after.config.mode == 0 && after.panning == before.panning && (before.config.mode == 0 ==> after == before)
    else if crtc.changing then
      after == Target(outs, crtc, before)
    else
      after == before
  }

  method ScreenApply(d: Display, s: Server, current: Screen, target: Screen)
    requires current == s.state.screen && target.width == d.fbWidth && target.height == d.fbHeight
    requires AllFit(s.state.crtcs, s.modes, target.width, target.height)
    modifies s
    ensures s.state.crtcs == old(s.state).crtcs && (target != current ==> s.asked == old(s.asked) + 1)
    ensures target == current ==> s.log == old(s.log)
    ensures forall c | 0 <= c < |s.state.crtcs| :: LeftAlone(s.log, |old(s.log)|, c, s.state.crtcs[c])
    ensures WithinLimits(target, s.limits) || target == current ==>
              s.state.screen == target && AllAccepted(s.log, |old(s.log)|)
    ensures old(s.log) <= s.log
    ensures StateFits(old(s.state), s.modes) ==> AlwaysFit(s.log, |old(s.log)|, s.modes) && StateFits(s.state, s.modes)
  {
    if target == current {
      return;
    }
    s.SetScreenSize(target);
  }

  /** The CRTCs before `c` are applied, the others are as the first loop left them. */
  ghost predicate Applying(outs: seq<Output>, crtcs: seq<Crtc>, before: ServerState, room: ServerState,
                           now: ServerState, c: nat) {
    && |crtcs| == |before.crtcs| == |room.crtcs| == |now.crtcs| && c <= |crtcs| && now.screen == room.screen
    && ValidTargets(outs, crtcs) && PendingStays(crtcs, before, now)
    && (forall k | 0 <= k < c :: TargetReached(outs, crtcs[k], before.crtcs[k], now.crtcs[k]))
    && (forall k | c <= k < |crtcs| :: now.crtcs[k] == room.crtcs[k])
  }

  method SetCrtcConfigs(d: Display, s: Server, modes: seq<Mode>, width: int, height: int,
                        ghost crtcs: seq<Crtc>, ghost before: ServerState) returns (ok: bool)
    requires modes == s.modes
    requires RoomMade(modes, width, height, crtcs, d.crtcs[..], before,
                      ServerState(before.screen, s.state.crtcs), d.crtcs.Length)
    requires ValidTargets(d.outputs[..], d.crtcs[..])
    modifies s
    ensures PendingStays(d.crtcs[..], before, s.state) && s.state.screen == old(s.state).screen
    ensures old(s.log) <= s.log
    ensures if ok then AllAccepted(s.log, |old(s.log)|) else FailsLast(s.log, |old(s.log)|)
    ensures ok ==> forall c | 0 <= c < d.crtcs.Length ::
                     TargetReached(d.outputs[..], d.crtcs[c], before.crtcs[c], s.state.crtcs[c])
    ensures QuietLeftAlone(crtcs, before, modes, width, height, s.log, |old(s.log)|)
    ensures StateFits(old(s.state), modes)
            && TargetsFit(d.outputs[..], d.crtcs[..], before, modes, s.state.screen.width, s.state.screen.height) ==>
              AlwaysFit(s.log, |old(s.log)|, modes) && StateFits(s.state, modes)
  {
    ghost var room, log, outs, marked := s.state, s.log, d.outputs[..], d.crtcs[..];
    ghost var fits := StateFits(room, modes)
                      && TargetsFit(outs, marked, before, modes, room.screen.width, room.screen.height);
    RoomMadeKeepsPending(modes, width, height, crtcs, marked, before, ServerState(before.screen, room.crtcs), |crtcs|);
    var c := 0;
    while c < d.crtcs.Length
      invariant Applying(outs, marked, before, room, s.state, c)
      invariant WellSoFar(s, modes, width, height, crtcs, before, log, fits) && AllAccepted(s.log, |log|)
      decreases d.crtcs.Length - c
    {
      ok := ApplyNext(d, s, c, modes, width, height, crtcs, before, room, log, fits);
      if !ok {
        return;
      }
      c := c + 1;
    }
    ok := true;
  }

  /** What holds during the last loop whether or not something was refused. */
  ghost predicate WellSoFar(s: Server, modes: seq<Mode>, width: int, height: int, crtcs: seq<Crtc>, before: ServerState,
                            log: seq<Reply>, fits: bool)
    reads s
  {
    && log <= s.log && QuietLeftAlone(crtcs, before, modes, width, height, s.log, |log|)
    && (fits ==> AlwaysFit(s.log, |log|, modes) && StateFits(s.state, modes))
  }

  /** One turn of the last loop. */
  method ApplyNext(d: Display, s: Server, c: nat, ghost modes: seq<Mode>, ghost width: int, ghost height: int,
                   ghost crtcs: seq<Crtc>, ghost before: ServerState, ghost room: ServerState, ghost log: seq<Reply>,
                   ghost fits: bool) returns (ok: bool)
    requires modes == s.modes && c < d.crtcs.Length
    requires RoomMade(modes, width, height, crtcs, d.crtcs[..], before,
                      ServerState(before.screen, room.crtcs), d.crtcs.Length)
    requires Applying(d.outputs[..], d.crtcs[..], before, room, s.state, c)
    requires WellSoFar(s, modes, width, height, crtcs, before, log, fits) && AllAccepted(s.log, |log|)
    requires fits ==> TargetsFit(d.outputs[..], d.crtcs[..], before, modes, room.screen.width, room.screen.height)
    modifies s
    ensures WellSoFar(s, modes, width, height, crtcs, before, log, fits)
    ensures PendingStays(d.crtcs[..], before, s.state) && s.state.screen == old(s.state).screen
    ensures if ok then Applying(d.outputs[..], d.crtcs[..], before, room, s.state, c + 1) && AllAccepted(s.log, |log|)
            else FailsLast(s.log, |log|)
  {
    ghost var outs, marked, sofar, now := d.outputs[..], d.crtcs[..], s.log, s.state;
    assert MadeRoom(modes, width, height, crtcs[c], marked[c], before.crtcs[c], room.crtcs[c]);
    TargetInRoom(outs, marked[c], before.crtcs[c], room.crtcs[c]);
    assert fits ==> TargetFits(outs, marked[c], room.crtcs[c], modes, room.screen.width, room.screen.height);
    ok := CrtcApply(d, s, c);
    assert QuietLeftAlone(crtcs, before, modes, width, height, s.log, |log|) by {
      ApplyingLeavesQuiet(modes, width, height, outs, crtcs, marked, before, room, now, c, sofar, s.log, |log|);
    }
    assert fits ==> AlwaysFit(s.log, |log|, modes) by {
      LogExtended(sofar, s.log, |log|, modes);
    }
    if ok {
      assert AllAccepted(s.log, |log|) by {
        LogExtended(sofar, s.log, |log|, modes);
      }
      assert Applying(outs, marked, before, room, s.state, c + 1) by {
        ApplyReaches(modes, width, height, outs, crtcs[c], marked[c], before.crtcs[c], room.crtcs[c], s.state.crtcs[c]);
        ApplyingNext(outs, marked, before, room, now, s.state, c);
      }
    } else {
      assert FailsLast(s.log, |log|) by {
        FailureIsLast(sofar, s.log, |log|);
      }
    }
  }

  /** A turn of the last loop touches no quiet CRTC. */
  lemma ApplyingLeavesQuiet(modes: seq<Mode>, width: int, height: int, outs: seq<Output>, crtcs: seq<Crtc>,
                            marked: seq<Crtc>, before: ServerState, room: ServerState, now: ServerState, c: nat,
                            a: seq<Reply>, b: seq<Reply>, from: nat)
    requires RoomMade(modes, width, height, crtcs, marked, before, ServerState(before.screen, room.crtcs), |crtcs|)
    requires Applying(outs, marked, before, room, now, c) && c < |crtcs|
    requires a <= b && from <= |a| && QuietLeftAlone(crtcs, before, modes, width, height, a, from)
    requires OthersLeftAlone(b, |a|, c, now) && (!marked[c].changing ==> b == a)
    ensures QuietLeftAlone(crtcs, before, modes, width, height, b, from)
  {
    forall k | 0 <= k < |crtcs| && Quiet(crtcs[k], before.crtcs[k], modes, width, height)
      ensures LeftAlone(b, |a|, k, before.crtcs[k])
    {
      assert MadeRoom(modes, width, height, crtcs[k], marked[k], before.crtcs[k], room.crtcs[k]);
      if k < c { assert TargetReached(outs, marked[k], before.crtcs[k], now.crtcs[k]); }
      if k != c { assert LeftAlone(b, |a|, k, now.crtcs[k]); }
    }
    QuietExtended(crtcs, before, modes, width, height, a, b, from);
  }

  /** The first loop changes nothing that the target depends on. */
  lemma TargetInRoom(outs: seq<Output>, crtc: Crtc, before: CrtcState, room: CrtcState)
    requires ValidTarget(outs, crtc) && SamePending(before, room) && before.panning == room.panning
    ensures crtc.mode.Some? ==> Target(outs, crtc, before) == Target(outs, crtc, room)
  {
  }

  lemma ApplyingNext(outs: seq<Output>, crtcs: seq<Crtc>, before: ServerState, room: ServerState,
                     now: ServerState, next: ServerState, c: nat)
    requires Applying(outs, crtcs, before, room, now, c) && c < |crtcs|
    requires next.screen == now.screen && |next.crtcs| == |crtcs|
    requires forall k | 0 <= k < |crtcs| && k != c :: next.crtcs[k] == now.crtcs[k]
    requires crtcs[c].current == crtcs[c].pending ==> SamePending(now.crtcs[c], next.crtcs[c])
    requires TargetReached(outs, crtcs[c], before.crtcs[c], next.crtcs[c])
    ensures Applying(outs, crtcs, before, room, next, c + 1)
  {
  }

  /** Skipping an unmarked CRTC is right: the first loop left it alone, or off. */
  lemma ApplyReaches(modes: seq<Mode>, width: int, height: int, outs: seq<Output>, crtc: Crtc, crtc': Crtc,
                     before: CrtcState, room: CrtcState, after: CrtcState)
    requires MadeRoom(modes, width, height, crtc, crtc', before, room) && ValidTarget(outs, crtc')
    requires !crtc'.changing || crtc'.mode.None? ==> after == room
    requires crtc'.changing && crtc'.mode.Some? ==> after == Target(outs, crtc', room)
    requires crtc'.mode == crtc.mode
    ensures TargetReached(outs, crtc', before, after)
  {
  }

  ghost predicate ValidTargets(outs: seq<Output>, crtcs: seq<Crtc>) {
    forall c | 0 <= c < |crtcs| :: ValidTarget(outs, crtcs[c])
  }

  ghost predicate TargetsFit(outs: seq<Output>, crtcs: seq<Crtc>, before: ServerState, modes: seq<Mode>,
                             width: int, height: int)
    requires ValidTargets(outs, crtcs) && |crtcs| == |before.crtcs|
  {
    forall c | 0 <= c < |crtcs| :: TargetFits(outs, crtcs[c], before.crtcs[c], modes, width, height)
  }

  lemma MarkingKeepsTargets(outs: seq<Output>, crtcs: seq<Crtc>, crtcs': seq<Crtc>, before: ServerState,
                            modes: seq<Mode>, width: int, height: int)
    requires OnlyMarked(crtcs, crtcs') && ValidTargets(outs, crtcs) && |crtcs| == |before.crtcs|
    ensures ValidTargets(outs, crtcs')
    ensures TargetsFit(outs, crtcs, before, modes, width, height) ==>
              TargetsFit(outs, crtcs', before, modes, width, height)
  {
    forall c | 0 <= c < |crtcs|
      ensures ValidTarget(outs, crtcs'[c])
      ensures TargetFits(outs, crtcs[c], before.crtcs[c], modes, width, height) ==>
                TargetFits(outs, crtcs'[c], before.crtcs[c], modes, width, height)
    {
      assert crtcs'[c] == crtcs[c].(changing := crtcs'[c].changing) && ValidTarget(outs, crtcs[c]);
    }
  }

  lemma MarkingKeepsMirror(crtcs: seq<Crtc>, crtcs': seq<Crtc>, st: ServerState)
    requires OnlyMarked(crtcs, crtcs') && Mirrors(crtcs, st)
    ensures Mirrors(crtcs', st)
  {
    forall c | 0 <= c < |crtcs| ensures MirrorsCrtc(crtcs'[c], st.crtcs[c]) {
      assert crtcs'[c] == crtcs[c].(changing := crtcs'[c].changing) && MirrorsCrtc(crtcs[c], st.crtcs[c]);
    }
  }

  lemma RoomForAll(modes: seq<Mode>, width: int, height: int, crtcs: seq<Crtc>, crtcs': seq<Crtc>, st: ServerState,
                   st': ServerState)
    requires RoomMade(modes, width, height, crtcs, crtcs', st, st', |crtcs|)
    ensures AllFit(st'.crtcs, modes, width, height)
  {
    forall c | 0 <= c < |crtcs| ensures CrtcFits(st'.crtcs[c], modes, width, height) {
      RoomMeansFit(modes, width, height, crtcs[c], crtcs'[c], st.crtcs[c], st'.crtcs[c]);
    }
  }

  /** What `apply` starts from: the records mirror the server, and the sizes are permitted ones. */
  ghost predicate Ready(d: Display, s: Server, current: Screen, target: Screen)
    reads d, d.outputs, d.crtcs, s
  {
    && Mirrors(d.crtcs[..], s.state) && ValidTargets(d.outputs[..], d.crtcs[..])
    && current == s.state.screen && WithinLimits(current, s.limits)
    && target.width == d.fbWidth && target.height == d.fbHeight && WithinLimits(target, s.limits)
  }

  /** All states fit now, and so do the targets. */
  ghost predicate ReadyToFit(d: Display, s: Server, target: Screen)
    requires ValidTargets(d.outputs[..], d.crtcs[..]) && d.crtcs.Length == |s.state.crtcs|
    reads d, d.outputs, d.crtcs, s
  {
    && StateFits(s.state, s.modes)
    && TargetsFit(d.outputs[..], d.crtcs[..], s.state, s.modes, target.width, target.height)
  }

  lemma ResizingLeavesQuiet(modes: seq<Mode>, width: int, height: int, crtcs: seq<Crtc>, marked: seq<Crtc>,
                            before: ServerState, room: ServerState, a: seq<Reply>, b: seq<Reply>, from: nat)
    requires RoomMade(modes, width, height, crtcs, marked, before, room, |crtcs|)
    requires a <= b && from <= |a| && QuietLeftAlone(crtcs, before, modes, width, height, a, from)
    requires forall c | 0 <= c < |crtcs| :: LeftAlone(b, |a|, c, room.crtcs[c])
    ensures QuietLeftAlone(crtcs, before, modes, width, height, b, from)
  {
    forall c | 0 <= c < |crtcs| && Quiet(crtcs[c], before.crtcs[c], modes, width, height)
      ensures LeftAlone(b, |a|, c, before.crtcs[c])
    {
      assert MadeRoom(modes, width, height, crtcs[c], marked[c], before.crtcs[c], room.crtcs[c]);
    }
    QuietExtended(crtcs, before, modes, width, height, a, b, from);
  }

  /** The three steps of `apply` up to the first refusal. */
  method TryApply(d: Display, s: Server, current: Screen, target: Screen) returns (ok: bool)
    requires Ready(d, s, current, target)
    modifies d.crtcs, s
    ensures old(s.log) <= s.log && PendingStays(d.crtcs[..], old(s.state), s.state)
    ensures s.state.screen == old(s.state).screen || s.state.screen == target
    ensures OnlyMarked(old(d.crtcs[..]), d.crtcs[..])
    ensures ok ==> s.state.screen == target && AllAccepted(s.log, |old(s.log)|)
    ensures ok ==> |s.state.crtcs| == d.crtcs.Length && ValidTargets(d.outputs[..], d.crtcs[..])
    ensures ok ==> forall c | 0 <= c < d.crtcs.Length ::
                     TargetReached(d.outputs[..], d.crtcs[c], old(s.state).crtcs[c], s.state.crtcs[c])
    ensures !ok ==> AllAccepted(s.log, |old(s.log)|) || FailsLast(s.log, |old(s.log)|)
    ensures !ok && ModesKnown(old(s.state), s.modes) ==> FailsLast(s.log, |old(s.log)|)
    ensures QuietLeftAlone(old(d.crtcs[..]), old(s.state), s.modes, target.width, target.height, s.log, |old(s.log)|)
    ensures old(ReadyToFit(d, s, target)) ==> AlwaysFit(s.log, |old(s.log)|, s.modes) && StateFits(s.state, s.modes)
  {
    ghost var crtcs, before, from := d.crtcs[..], s.state, |s.log|;
    ok := DisableUnfit(d, s);
    if !ok {
      return;
    }
    ghost var log := s.log;
    MarkingKeepsTargets(d.outputs[..], crtcs, d.crtcs[..], before, s.modes, target.width, target.height);
    RoomForAll(s.modes, d.fbWidth, d.fbHeight, crtcs, d.crtcs[..], before, s.state);
    ghost var room := s.state;
    ScreenApply(d, s, current, target);
    assert QuietLeftAlone(crtcs, before, s.modes, target.width, target.height, s.log, from) by {
      ResizingLeavesQuiet(s.modes, target.width, target.height, crtcs, d.crtcs[..], before, room, log, s.log, from);
    }
    LogExtended(log, s.log, from, s.modes);
    log := s.log;
    ok := SetCrtcConfigs(d, s, s.modes, d.fbWidth, d.fbHeight, crtcs, before);
    QuietExtended(crtcs, before, s.modes, target.width, target.height, log, s.log, from);
    LogExtended(log, s.log, from, s.modes);
    FailureIsLast(log, s.log, from);
  }

  /** `panicAt` is the length of the log when undoing starts, and `restored` tells whose
      old configuration was accepted then. */
  method Apply(d: Display, s: Server, current: Screen, target: Screen)
    returns (ok: bool, ghost panicAt: nat, ghost restored: seq<bool>)
    requires Ready(d, s, current, target)
    modifies d.crtcs, s
    ensures old(s.log) <= s.log && |old(s.log)| <= panicAt <= |s.log|
    ensures OnlyMarked(old(d.crtcs[..]), d.crtcs[..])
    // success: every request was accepted and every CRTC has reached its target
    ensures ok ==> s.state.screen == target && AllAccepted(s.log, |old(s.log)|) && panicAt == |s.log|
    ensures ok ==> |s.state.crtcs| == d.crtcs.Length && ValidTargets(d.outputs[..], d.crtcs[..])
    ensures ok ==> forall c | 0 <= c < d.crtcs.Length ::
                     TargetReached(d.outputs[..], d.crtcs[c], old(s.state).crtcs[c], s.state.crtcs[c])
    // quiet CRTCs are never touched, unless something has to be undone
    ensures QuietLeftAlone(old(d.crtcs[..]), old(s.state), s.modes, target.width, target.height, s.log[..panicAt],
                           |old(s.log)|)
    // failure comes of a refusal, as long as the modes that are shown are known
    ensures !ok && ModesKnown(old(s.state), s.modes) ==> FailsLast(s.log[..panicAt], |old(s.log)|)
    // failure: if everything after the refused step is accepted, the old configuration is back
    // exactly if no foreign transform gets in the way
    ensures !ok ==> |s.log| > panicAt + d.crtcs.Length && FailedAt(s.log, |old(s.log)|, panicAt)
    ensures !ok ==> s.state.screen == old(s.state).screen
                    || (s.state.screen == target && !s.log[panicAt + d.crtcs.Length].accepted)
    ensures !ok && AllAccepted(s.log, panicAt) ==>
              (Restored(old(s.state), s.state) <==> AllUndisturbed(d.crtcs[..], old(s.state)))
    // every state on the way keeps the enabled CRTCs on the screen; after a failure, exactly if
    // those that are restored fit the size that the screen has by then
    ensures old(ReadyToFit(d, s, target)) ==>
              (AlwaysFit(s.log, |old(s.log)|, s.modes) <==>
               || ok
               || RestoredFit(d.crtcs[..], old(s.state), restored, s.modes,
                              s.state.screen.width, s.state.screen.height))
  {
    ghost var crtcs, before, from := d.crtcs[..], s.state, |s.log|;
    ok := TryApply(d, s, current, target);
    panicAt, restored := |s.log|, [];
    assert s.log[..panicAt] == s.log;
    if !ok {
      ghost var log := s.log;
      MarkingKeepsMirror(crtcs, d.crtcs[..], before);
      restored := Panic(d, s, current, before);
      LogExtended(log, s.log, from, s.modes);
      assert s.log[..panicAt] == log;
    }
  }

  /** Before `end` everything was accepted, or everything but the last request. */
  ghost predicate FailedAt(log: seq<Reply>, from: nat, end: nat)
    requires end <= |log|
  {
    AllAccepted(log[..end], from) || FailsLast(log[..end], from)
  }
}
