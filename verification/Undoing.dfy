/** Undoing, when the server refuses a step: `panic`, `revert`, `crtc_revert`, `crtc_disable`. */
module Undoing {
  import opened Basics
  import opened Geometry
  import opened Displays
  import opened ScreenSize
  import opened Server

  /** The CRTC records hold what the server has in effect. What waits there for the next
      configuration is not read: it may be any transform that somebody left behind. */
  ghost predicate Mirrors(crtcs: seq<Crtc>, st: ServerState) {
    && |crtcs| == |st.crtcs|
    && forall c | 0 <= c < |crtcs| :: MirrorsCrtc(crtcs[c], st.crtcs[c])
  }

  ghost predicate MirrorsCrtc(crtc: Crtc, st: CrtcState) {
    crtc.info == st.config && Matches(st.config) && crtc.current == st.committed
  }

  /** No CRTC has a transform waiting that differs from the one in effect. */
  ghost predicate NothingPending(st: ServerState) {
    forall c | 0 <= c < |st.crtcs| :: st.crtcs[c].pending == st.crtcs[c].committed
  }

  /** The program sends a transform only where its two copies differ, so elsewhere the
      server's pending one stays. */
  ghost predicate PendingStays(crtcs: seq<Crtc>, before: ServerState, now: ServerState) {
    && |crtcs| == |before.crtcs| == |now.crtcs|
    && forall c | 0 <= c < |crtcs| ::
         crtcs[c].current == crtcs[c].pending ==> SamePending(before.crtcs[c], now.crtcs[c])
  }

  predicate SamePending(a: CrtcState, b: CrtcState) {
    a.pending == b.pending
  }

  /** The transform that takes effect with the next configuration: the one that is sent,
      or else the one that waits on the server. */
  function Taking(crtc: Crtc, sent: Transform, st: CrtcState): Transform {
    if crtc.current != crtc.pending then sent else st.pending
  }

  /** What an accepted `crtc_revert` makes of a CRTC; it keeps what panning area it has by now. */
  function Back(crtc: Crtc, st: CrtcState): CrtcState {
    var transform := Taking(crtc, crtc.current, st);
    CrtcState(crtc.info, transform, transform, st.panning)
  }

  /** The CRTC shows again what it did, and nothing is pending; panning aside. */
  ghost predicate IsBack(before: CrtcState, after: CrtcState) {
    after.config == before.config && after.committed == before.committed == after.pending
  }

  ghost predicate Restored(before: ServerState, after: ServerState) {
    && after.screen == before.screen && |after.crtcs| == |before.crtcs|
    && forall c | 0 <= c < |before.crtcs| :: IsBack(before.crtcs[c], after.crtcs[c])
  }

  /** No foreign transform gets in the way: the program sends its own, or nothing was pending. */
  predicate Undisturbed(crtc: Crtc, st: CrtcState) {
    crtc.current != crtc.pending || st.pending == st.committed
  }

  ghost predicate AllUndisturbed(crtcs: seq<Crtc>, st: ServerState) {
    |crtcs| == |st.crtcs| && forall c | 0 <= c < |crtcs| :: Undisturbed(crtcs[c], st.crtcs[c])
  }

  /** A CRTC comes back exactly if no foreign transform gets in the way. */
  lemma BackWhenUndisturbed(crtc: Crtc, st: CrtcState)
    requires MirrorsCrtc(crtc, st)
    ensures IsBack(st, Back(crtc, st)) <==> Undisturbed(crtc, st)
  {
  }

  // ---- What the log says ----

  ghost predicate AllAccepted(log: seq<Reply>, from: nat) {
    forall k | from <= k < |log| :: log[k].accepted
  }

  /** Everything was accepted but the last request. */
  ghost predicate FailsLast(log: seq<Reply>, from: nat) {
    && |log| > from && !log[|log| - 1].accepted
    && forall k | from <= k < |log| - 1 :: log[k].accepted
  }

  /** Every state that the server went through has all enabled CRTCs on the screen. */
  ghost predicate AlwaysFit(log: seq<Reply>, from: nat, modes: seq<Mode>) {
    forall k | from <= k < |log| :: StateFits(log[k].after, modes)
  }

  /** CRTC `c` was in the same state all the time. */
  ghost predicate LeftAlone(log: seq<Reply>, from: nat, c: nat, st: CrtcState) {
    forall k | from <= k < |log| :: c < |log[k].after.crtcs| && log[k].after.crtcs[c] == st
  }

  /** And so were all CRTCs but one. */
  ghost predicate OthersLeftAlone(log: seq<Reply>, from: nat, c: nat, st: ServerState) {
    forall e | 0 <= e < |st.crtcs| && e != c :: LeftAlone(log, from, e, st.crtcs[e])
  }

  lemma AloneExtended(a: seq<Reply>, b: seq<Reply>, from: nat, c: nat, st: CrtcState)
    requires a <= b && from <= |a|
    ensures LeftAlone(b, from, c, st) <==> LeftAlone(a, from, c, st) && LeftAlone(b, |a|, c, st)
  {
    assert forall k | 0 <= k < |a| :: a[k] == b[k];
  }

  lemma ConfiguredFits(st: ServerState, modes: seq<Mode>, c: nat, config: Config)
    requires StateFits(st, modes) && c < |st.crtcs|
    requires CrtcFits(Configured(st, c, config).crtcs[c], modes, st.screen.width, st.screen.height)
    ensures StateFits(Configured(st, c, config), modes)
  {
    var next := Configured(st, c, config);
    assert forall k | 0 <= k < |st.crtcs| && k != c :: next.crtcs[k] == st.crtcs[k];
  }

  lemma TransformSetFits(st: ServerState, modes: seq<Mode>, c: nat, transform: Transform)
    requires StateFits(st, modes) && c < |st.crtcs|
    ensures StateFits(TransformSet(st, c, transform), modes)
  {
    var next := TransformSet(st, c, transform);
    forall k | 0 <= k < |st.crtcs| ensures CrtcFits(next.crtcs[k], modes, st.screen.width, st.screen.height) {
      assert CrtcFits(st.crtcs[k], modes, st.screen.width, st.screen.height);
    }
  }

  lemma PanningSetFits(st: ServerState, modes: seq<Mode>, c: nat, panning: Option<Panning>)
    requires StateFits(st, modes) && c < |st.crtcs|
    ensures StateFits(PanningSet(st, c, panning), modes)
  {
    var next := PanningSet(st, c, panning);
    forall k | 0 <= k < |st.crtcs| ensures CrtcFits(next.crtcs[k], modes, st.screen.width, st.screen.height) {
      assert CrtcFits(st.crtcs[k], modes, st.screen.width, st.screen.height);
    }
  }

  // ---- Turning everything off ----

  method CrtcDisable(s: Server, c: nat) returns (ok: bool)
    requires c < |s.state.crtcs|
    modifies s
    ensures ok <==> s.answers(old(s.asked))
    ensures s.state == if ok then Configured(old(s.state), c, OFF) else old(s.state)
    ensures s.log == old(s.log) + [Reply(ok, s.state)] && s.asked == old(s.asked) + 1
    ensures StateFits(old(s.state), s.modes) ==> StateFits(s.state, s.modes)
  {
    ghost var before := s.state;
    ok := s.SetCrtcConfig(c, OFF);
    if ok && StateFits(before, s.modes) {
      ConfiguredFits(before, s.modes, c, OFF);
    }
  }

  /** What turning off the first CRTCs leaves; `off` tells which requests were accepted. */
  ghost predicate Disabled(st: ServerState, st': ServerState, off: seq<bool>) {
    && st'.screen == st.screen && |st'.crtcs| == |st.crtcs| && |off| <= |st.crtcs|
    && (forall c | |off| <= c < |st.crtcs| :: st'.crtcs[c] == st.crtcs[c])
    && forall c | 0 <= c < |off| :: st'.crtcs[c] == if off[c] then Configured(st, c, OFF).crtcs[c] else st.crtcs[c]
  }

  /** The answers that start with the n-th request. */
  ghost predicate Answered(accepted: seq<bool>, answers: nat -> bool, n: nat) {
    forall c | 0 <= c < |accepted| :: accepted[c] == answers(n + c)
  }

  ghost predicate AllTrue(accepted: seq<bool>) {
    forall c | 0 <= c < |accepted| :: accepted[c]
  }

  lemma OneMoreDisabled(st: ServerState, now: ServerState, next: ServerState, off: seq<bool>, ok: bool)
    requires Disabled(st, now, off) && |off| < |st.crtcs|
    requires next == if ok then Configured(now, |off|, OFF) else now
    ensures Disabled(st, next, off + [ok])
  {
  }

  /** What holds while the CRTCs are turned off. */
  ghost predicate Disabling(s: Server, st: ServerState, log: seq<Reply>, asked: nat, off: seq<bool>)
    reads s
  {
    && Disabled(st, s.state, off) && Answered(off, s.answers, asked)
    && log <= s.log && |s.log| == |log| + |off| && s.asked == asked + |off|
    && (AllAccepted(s.log, |log|) ==> AllTrue(off))
    && (StateFits(st, s.modes) ==> AlwaysFit(s.log, |log|, s.modes) && StateFits(s.state, s.modes))
  }

  method DisableNext(s: Server, ghost st: ServerState, ghost log: seq<Reply>, ghost asked: nat, c: nat,
                     ghost off: seq<bool>) returns (ghost next: seq<bool>)
    requires Disabling(s, st, log, asked, off) && c == |off| < |st.crtcs|
    modifies s
    ensures Disabling(s, st, log, asked, next) && |next| == c + 1
  {
    ghost var before, now := s.log, s.state;
    var ok := CrtcDisable(s, c);
    next := off + [ok];
    OneMoreDisabled(st, now, s.state, off, ok);
    LogExtended(before, s.log, |log|, s.modes);
    assert s.log[|before|] == Reply(ok, s.state);
    LastAccepted(before, s.log, off, ok);
  }

  /** If everything was accepted, so was the last request. */
  lemma LastAccepted(log: seq<Reply>, next: seq<Reply>, accepted: seq<bool>, ok: bool)
    requires log < next && (AllAccepted(next, |log|) ==> ok)
    ensures AllTrue(accepted) && AllAccepted(next, |log|) ==> AllTrue(accepted + [ok])
  {
  }

  method DisableAll(d: Display, s: Server) returns (ghost off: seq<bool>)
    requires d.crtcs.Length == |s.state.crtcs|
    modifies s
    ensures |off| == d.crtcs.Length && Disabling(s, old(s.state), old(s.log), old(s.asked), off)
  {
    off := [];
    var c := 0;
    while c < d.crtcs.Length
      invariant 0 <= c == |off| <= d.crtcs.Length
      invariant Disabling(s, old(s.state), old(s.log), old(s.asked), off)
    {
      off := DisableNext(s, old(s.state), old(s.log), old(s.asked), c, off);
      c := c + 1;
    }
  }

  // ---- Restoring ----

  method CrtcRevert(d: Display, s: Server, c: nat) returns (ok: bool)
    requires c < d.crtcs.Length == |s.state.crtcs|
    modifies s
    ensures s.state.screen == old(s.state).screen && |s.state.crtcs| == d.crtcs.Length
    ensures forall k | 0 <= k < d.crtcs.Length && k != c :: s.state.crtcs[k] == old(s.state).crtcs[k]
    ensures d.crtcs[c].current == d.crtcs[c].pending ==> SamePending(old(s.state).crtcs[c], s.state.crtcs[c])
    ensures ok ==> s.state.crtcs[c] == Back(d.crtcs[c], old(s.state).crtcs[c])
    ensures s.asked == old(s.asked) + RevertRequests(d.crtcs[c])
    ensures ok <==> Matches(d.crtcs[c].info) && s.answers(s.asked - 1)
    ensures old(s.log) < s.log && (AllAccepted(s.log, |old(s.log)|) ==> ok)
    // every state on the way fits exactly if what comes back fits the screen or was refused
    ensures StateFits(old(s.state), s.modes) ==>
              FitsAfter(s.log, |old(s.log)|, s.modes, ok, Back(d.crtcs[c], old(s.state).crtcs[c]), s.state)
  {
    ghost var st := s.state;
    var crtc := d.crtcs[c];
    if crtc.current != crtc.pending {
      s.SetCrtcTransform(c, crtc.current);
      if StateFits(st, s.modes) {
        TransformSetFits(st, s.modes, c, crtc.current);
      }
    }
    st := s.state;
    ok := s.SetCrtcConfig(c, crtc.info);
    assert s.log[|s.log| - 1] == Reply(ok, s.state);
    if ok && StateFits(st, s.modes) {
      if CrtcFits(s.state.crtcs[c], s.modes, st.screen.width, st.screen.height) {
        ConfiguredFits(st, s.modes, c, crtc.info);
      }
    }
  }

  /** Every state since `from` fits exactly if the CRTC that came back does, or was refused. */
  ghost predicate FitsAfter(log: seq<Reply>, from: nat, modes: seq<Mode>, ok: bool, back: CrtcState, now: ServerState) {
    && (AlwaysFit(log, from, modes) <==> (ok ==> CrtcFits(back, modes, now.screen.width, now.screen.height)))
    && (AlwaysFit(log, from, modes) ==> StateFits(now, modes))
  }

  /** How many requests it takes to restore a CRTC. */
  function RevertRequests(crtc: Crtc): nat {
    if crtc.current != crtc.pending then 2 else 1
  }

  /** How many it takes for the first `n` CRTCs. */
  function AllRevertRequests(crtcs: seq<Crtc>, n: nat): nat
    requires n <= |crtcs|
  {
    if n == 0 then 0 else AllRevertRequests(crtcs, n - 1) + RevertRequests(crtcs[n - 1])
  }

  /** The CRTCs that were restored came back. */
  ghost predicate RestoredTo(crtcs: seq<Crtc>, before: ServerState, now: ServerState, restored: seq<bool>) {
    && |restored| <= |crtcs| == |before.crtcs| == |now.crtcs|
    && forall c {:trigger restored[c]} | 0 <= c < |restored| && restored[c] ::
         now.crtcs[c] == Back(crtcs[c], before.crtcs[c]).(panning := now.crtcs[c].panning)
  }

  /** What came back fits a size. */
  ghost predicate RestoredFit(crtcs: seq<Crtc>, before: ServerState, restored: seq<bool>, modes: seq<Mode>,
                              width: int, height: int) {
    && |restored| <= |crtcs| == |before.crtcs|
    && forall c {:trigger restored[c]} | 0 <= c < |restored| && restored[c] ::
         CrtcFits(Back(crtcs[c], before.crtcs[c]), modes, width, height)
  }

  /** The old configurations were accepted as the server was willing to, from its n-th request on. */
  ghost predicate RestoredAsAnswered(restored: seq<bool>, crtcs: seq<Crtc>, answers: nat -> bool, n: nat) {
    && |restored| <= |crtcs|
    && forall c | 0 <= c < |restored| :: restored[c] == answers(RevertNumber(crtcs, c, n))
  }

  /** The number of the request that restores CRTC `c`, when the first of all has number `n`. */
  function RevertNumber(crtcs: seq<Crtc>, c: nat, n: nat): nat
    requires c < |crtcs|
  {
    n + AllRevertRequests(crtcs, c) + RevertRequests(crtcs[c]) - 1
  }

  lemma OneMoreAnswered(restored: seq<bool>, ok: bool, crtcs: seq<Crtc>, answers: nat -> bool, n: nat)
    requires RestoredAsAnswered(restored, crtcs, answers, n) && |restored| < |crtcs|
    requires ok == answers(RevertNumber(crtcs, |restored|, n))
    ensures RestoredAsAnswered(restored + [ok], crtcs, answers, n)
  {
  }

  /** What holds while the CRTCs are restored: `n` is the number of the first request, and `fits`
      whether every CRTC was on the screen then. */
  ghost predicate Reverting(crtcs: seq<Crtc>, s: Server, before: ServerState, restored: seq<bool>,
                            from: nat, n: nat, fits: bool)
    reads s
  {
    && RestoredTo(crtcs, before, s.state, restored) && PendingStays(crtcs, before, s.state)
    && s.asked == n + AllRevertRequests(crtcs, |restored|)
    && RestoredAsAnswered(restored, crtcs, s.answers, n)
    && from <= |s.log| && (AllAccepted(s.log, from) ==> AllTrue(restored))
    && (fits ==> RevertFits(s.log, from, s.modes, crtcs, before, restored, s.state))
  }

  /** So far every state fits exactly if what was restored does; and then the present one does. */
  ghost predicate RevertFits(log: seq<Reply>, from: nat, modes: seq<Mode>, crtcs: seq<Crtc>, before: ServerState,
                             restored: seq<bool>, now: ServerState) {
    && (AlwaysFit(log, from, modes)
        <==> RestoredFit(crtcs, before, restored, modes, now.screen.width, now.screen.height))
    && (AlwaysFit(log, from, modes) ==> StateFits(now, modes))
  }

  method RevertNext(d: Display, s: Server, c: nat, ghost before: ServerState, ghost restored: seq<bool>,
                    ghost from: nat, ghost n: nat, ghost fits: bool) returns (ghost next: seq<bool>)
    requires Reverting(d.crtcs[..], s, before, restored, from, n, fits) && c == |restored| < d.crtcs.Length
    requires Mirrors(d.crtcs[..], before)
    modifies s
    ensures Reverting(d.crtcs[..], s, before, next, from, n, fits) && |next| == c + 1
    ensures old(s.log) <= s.log && s.state.screen == old(s.state).screen
  {
    ghost var crtcs, log, now := d.crtcs[..], s.log, s.state;
    assert MirrorsCrtc(crtcs[c], before.crtcs[c]);
    var ok := CrtcRevert(d, s, c);
    next := restored + [ok];
    assert RestoredAsAnswered(next, crtcs, s.answers, n) by {
      assert s.asked - 1 == RevertNumber(crtcs, c, n);
      OneMoreAnswered(restored, ok, crtcs, s.answers, n);
    }
    assert RestoredTo(crtcs, before, s.state, next) && PendingStays(crtcs, before, s.state) by {
      OneMoreRestored(crtcs, before, now, s.state, restored, ok);
    }
    assert AllAccepted(s.log, from) ==> AllTrue(next) by {
      LogExtended(log, s.log, from, s.modes);
      LastAccepted(log, s.log, restored, ok);
    }
    assert fits ==> RevertFits(s.log, from, s.modes, crtcs, before, next, s.state) by {
      if fits {
        OneMoreFits(log, s.log, from, s.modes, crtcs, before, restored, ok, now, s.state);
      }
    }
  }

  /** Until it is restored a CRTC has the pending transform that counts. */
  lemma SameBack(crtc: Crtc, before: CrtcState, now: CrtcState)
    requires crtc.current == crtc.pending ==> SamePending(before, now)
    ensures Back(crtc, now) == Back(crtc, before).(panning := now.panning)
  {
  }

  lemma OneMoreRestored(crtcs: seq<Crtc>, before: ServerState, now: ServerState, next: ServerState,
                        restored: seq<bool>, ok: bool)
    requires RestoredTo(crtcs, before, now, restored) && PendingStays(crtcs, before, now)
    requires |restored| < |crtcs| == |next.crtcs|
    requires forall k | 0 <= k < |crtcs| && k != |restored| :: next.crtcs[k] == now.crtcs[k]
    requires var c := |restored|;
             && (crtcs[c].current == crtcs[c].pending ==> SamePending(now.crtcs[c], next.crtcs[c]))
             && (ok ==> next.crtcs[c] == Back(crtcs[c], now.crtcs[c]))
    ensures RestoredTo(crtcs, before, next, restored + [ok]) && PendingStays(crtcs, before, next)
  {
    var c := |restored|;
    SameBack(crtcs[c], before.crtcs[c], now.crtcs[c]);
  }

  lemma OneMoreFits(log: seq<Reply>, log': seq<Reply>, from: nat, modes: seq<Mode>, crtcs: seq<Crtc>,
                    before: ServerState, restored: seq<bool>, ok: bool, now: ServerState, next: ServerState)
    requires log <= log' && from <= |log| && |restored| < |crtcs| == |before.crtcs| && next.screen == now.screen
    requires RevertFits(log, from, modes, crtcs, before, restored, now) && PendingStays(crtcs, before, now)
    requires StateFits(now, modes) ==>
               FitsAfter(log', |log|, modes, ok, Back(crtcs[|restored|], now.crtcs[|restored|]), next)
    ensures RevertFits(log', from, modes, crtcs, before, restored + [ok], next)
  {
    var c := |restored|;
    SameBack(crtcs[c], before.crtcs[c], now.crtcs[c]);
    LogExtended(log, log', from, modes);
    OneMoreFit(crtcs, before, restored, ok, modes, now.screen.width, now.screen.height);
  }

  lemma OneMoreFit(crtcs: seq<Crtc>, before: ServerState, restored: seq<bool>, ok: bool, modes: seq<Mode>,
                   width: int, height: int)
    requires |restored| < |crtcs| == |before.crtcs|
    ensures RestoredFit(crtcs, before, restored + [ok], modes, width, height)
            <==> RestoredFit(crtcs, before, restored, modes, width, height)
                 && (ok ==> CrtcFits(Back(crtcs[|restored|], before.crtcs[|restored|]), modes, width, height))
  {
    var next := restored + [ok];
    assert next[|restored|] == ok && forall k | 0 <= k < |restored| :: next[k] == restored[k];
  }

  method RevertAll(d: Display, s: Server, ghost before: ServerState, ghost n: nat) returns (ghost restored: seq<bool>)
    requires n == s.asked && PendingStays(d.crtcs[..], before, s.state) && Mirrors(d.crtcs[..], before)
    modifies s
    ensures Reverting(d.crtcs[..], s, before, restored, |old(s.log)|, n, StateFits(old(s.state), s.modes))
    ensures |restored| == d.crtcs.Length && old(s.log) <= s.log && s.state.screen == old(s.state).screen
  {
    ghost var from, fits := |s.log|, StateFits(s.state, s.modes);
    restored := [];
    var c := 0;
    while c < d.crtcs.Length
      invariant 0 <= c == |restored| <= d.crtcs.Length
      invariant Reverting(d.crtcs[..], s, before, restored, from, n, fits)
      invariant old(s.log) <= s.log && s.state.screen == old(s.state).screen
    {
      restored := RevertNext(d, s, c, before, restored, from, n, fits);
      c := c + 1;
    }
  }

  lemma LogExtended(a: seq<Reply>, b: seq<Reply>, from: nat, modes: seq<Mode>)
    requires a <= b && from <= |a|
    ensures AllAccepted(b, from) <==> AllAccepted(a, from) && AllAccepted(b, |a|)
    ensures AlwaysFit(b, from, modes) <==> AlwaysFit(a, from, modes) && AlwaysFit(b, |a|, modes)
  {
    assert forall k | 0 <= k < |a| :: a[k] == b[k];
  }

  // ---- The whole of it ----

  /** The old screen size, then every CRTC as it was. */
  method Resize(d: Display, s: Server, ghost before: ServerState, screen: Screen, ghost fits: bool,
                ghost at: nat, ghost n: nat)
    returns (ghost restored: seq<bool>)
    requires PendingStays(d.crtcs[..], before, s.state) && Mirrors(d.crtcs[..], before) && screen == before.screen
    requires fits <==> AllFit(s.state.crtcs, s.modes, screen.width, screen.height)
    requires at == |s.log| && n == s.asked + 1
    modifies s
    ensures at < |s.log| && old(s.log) <= s.log && |restored| == d.crtcs.Length
    ensures RestoredAsAnswered(restored, d.crtcs[..], s.answers, n)
    ensures RestoredTo(d.crtcs[..], before, s.state, restored)
    ensures s.log[at].accepted <==> WithinLimits(screen, s.limits) && fits
    ensures s.state.screen == if s.log[at].accepted then screen else old(s.state).screen
    ensures AllAccepted(s.log, at) ==> (Restored(before, s.state) <==> AllUndisturbed(d.crtcs[..], before))
    ensures StateFits(old(s.state), s.modes) ==>
              RevertFits(s.log, at, s.modes, d.crtcs[..], before, restored, s.state)
  {
    s.SetScreenSize(screen);
    ghost var resized := s.log;
    assert resized[at] == Reply(resized[at].accepted, s.state);
    restored := RevertAll(d, s, before, n);
    LogExtended(resized, s.log, at, s.modes);
    assert s.log[at] == resized[at];
    if AllAccepted(s.log, at) {
      RestoredIfUndisturbed(d.crtcs[..], before, s.state, restored);
    }
  }

  /** Off, then the old screen size, then every CRTC as it was. `off` and `restored` tell
      which CRTCs the server turned off and restored. */
  method Revert(d: Display, s: Server, ghost before: ServerState, screen: Screen)
    returns (ghost off: seq<bool>, ghost restored: seq<bool>)
    requires PendingStays(d.crtcs[..], before, s.state) && Mirrors(d.crtcs[..], before)
    requires screen == before.screen
    modifies s
    ensures |old(s.log)| + d.crtcs.Length < |s.log| && old(s.log) <= s.log
    ensures |off| == |restored| == d.crtcs.Length
    ensures Answered(off, s.answers, old(s.asked))
    ensures RestoredAsAnswered(restored, d.crtcs[..], s.answers, old(s.asked) + d.crtcs.Length + 1)
    ensures RestoredTo(d.crtcs[..], before, s.state, restored)
    // the old state is back if all is accepted and no foreign transform gets in the way, and only then
    ensures AllAccepted(s.log, |old(s.log)|) ==>
              s.state.screen == screen && (Restored(before, s.state) <==> AllUndisturbed(d.crtcs[..], before))
    // the screen gets its old size back exactly if every CRTC that stays on fits it
    ensures s.log[|old(s.log)| + d.crtcs.Length].accepted
            <==> WithinLimits(screen, s.limits) && StillOnFit(old(s.state), off, s.modes, screen)
    ensures s.state.screen == if s.log[|old(s.log)| + d.crtcs.Length].accepted then screen else old(s.state).screen
    // every state on the way fits exactly if what is restored fits the size that the screen has by then
    ensures StateFits(old(s.state), s.modes) ==>
              RevertFits(s.log, |old(s.log)|, s.modes, d.crtcs[..], before, restored, s.state)
  {
    ghost var from, at, n := |s.log|, |s.log| + d.crtcs.Length, s.asked + d.crtcs.Length + 1;
    ghost var fits;
    off, fits := GoDark(d, s, before, screen);
    ghost var disabled := s.log;
    restored := Resize(d, s, before, screen, fits, at, n);
    LogExtended(disabled, s.log, from, s.modes);
  }

  /** Turns off what can be turned off; what stays on decides about the size. */
  method GoDark(d: Display, s: Server, ghost before: ServerState, ghost screen: Screen)
    returns (ghost off: seq<bool>, ghost fits: bool)
    requires PendingStays(d.crtcs[..], before, s.state)
    modifies s
    ensures PendingStays(d.crtcs[..], before, s.state) && s.state.screen == old(s.state).screen
    ensures |off| == d.crtcs.Length && Answered(off, s.answers, old(s.asked))
    ensures old(s.log) <= s.log && |s.log| == |old(s.log)| + d.crtcs.Length && s.asked == old(s.asked) + d.crtcs.Length
    ensures fits <==> AllFit(s.state.crtcs, s.modes, screen.width, screen.height)
    ensures fits <==> StillOnFit(old(s.state), off, s.modes, screen)
    ensures StateFits(old(s.state), s.modes) ==> AlwaysFit(s.log, |old(s.log)|, s.modes) && StateFits(s.state, s.modes)
  {
    ghost var st := s.state;
    off := DisableAll(d, s);
    fits := StillOnFit(st, off, s.modes, screen);
    DisabledFit(st, s.state, off, s.modes, screen);
    DisablingKeepsPending(d.crtcs[..], before, st, s.state, off);
  }

  lemma DisablingKeepsPending(crtcs: seq<Crtc>, before: ServerState, st: ServerState, dark: ServerState, off: seq<bool>)
    requires PendingStays(crtcs, before, st) && Disabled(st, dark, off) && |off| == |st.crtcs|
    ensures PendingStays(crtcs, before, dark)
  {
  }

  lemma RestoredIfUndisturbed(crtcs: seq<Crtc>, before: ServerState, now: ServerState, restored: seq<bool>)
    requires Mirrors(crtcs, before) && now.screen == before.screen
    requires RestoredTo(crtcs, before, now, restored) && AllTrue(restored) && |restored| == |crtcs|
    ensures Restored(before, now) <==> AllUndisturbed(crtcs, before)
  {
    forall c | 0 <= c < |crtcs|
      ensures IsBack(before.crtcs[c], now.crtcs[c]) <==> Undisturbed(crtcs[c], before.crtcs[c])
    {
      assert restored[c] && MirrorsCrtc(crtcs[c], before.crtcs[c]);
      BackWhenUndisturbed(crtcs[c], before.crtcs[c]);
    }
  }

  /** Every CRTC that was not turned off fits the screen. */
  ghost predicate StillOnFit(st: ServerState, off: seq<bool>, modes: seq<Mode>, screen: Screen)
    requires |off| == |st.crtcs|
  {
    forall c | 0 <= c < |off| && !off[c] :: CrtcFits(st.crtcs[c], modes, screen.width, screen.height)
  }

  lemma DisabledFit(st: ServerState, st': ServerState, off: seq<bool>, modes: seq<Mode>, screen: Screen)
    requires |off| == |st.crtcs| && Disabled(st, st', off)
    ensures AllFit(st'.crtcs, modes, screen.width, screen.height) <==> StillOnFit(st, off, modes, screen)
  {
    if AllFit(st'.crtcs, modes, screen.width, screen.height) {
      forall c | 0 <= c < |off| && !off[c] ensures CrtcFits(st.crtcs[c], modes, screen.width, screen.height) {
        assert st'.crtcs[c] == st.crtcs[c];
      }
    }
  }

  /** Undoing, before or after the screen got its new size. */
  method Panic(d: Display, s: Server, current: Screen, ghost before: ServerState) returns (ghost restored: seq<bool>)
    requires PendingStays(d.crtcs[..], before, s.state) && Mirrors(d.crtcs[..], before) && current == before.screen
    modifies s
    ensures |old(s.log)| + d.crtcs.Length < |s.log| && old(s.log) <= s.log && |restored| == d.crtcs.Length
    ensures s.state.screen
            == if s.log[|old(s.log)| + d.crtcs.Length].accepted then current else old(s.state).screen
    ensures AllAccepted(s.log, |old(s.log)|) ==> (Restored(before, s.state) <==> AllUndisturbed(d.crtcs[..], before))
    ensures StateFits(old(s.state), s.modes) ==>
              RevertFits(s.log, |old(s.log)|, s.modes, d.crtcs[..], before, restored, s.state)
  {
    ghost var off;
    off, restored := Revert(d, s, before, current);
  }

  /** If the old configurations fit the new screen, which can be known beforehand, no
      refusal whatever takes an enabled CRTC off the screen. */
  lemma LargerScreenIsSafe(crtcs: seq<Crtc>, before: ServerState, restored: seq<bool>, modes: seq<Mode>,
                           width: int, height: int)
    requires Mirrors(crtcs, before) && AllUndisturbed(crtcs, before) && StateFits(before, modes)
    requires |restored| <= |crtcs| && before.screen.width <= width && before.screen.height <= height
    ensures RestoredFit(crtcs, before, restored, modes, width, height)
  {
    forall c | 0 <= c < |restored| && restored[c]
      ensures CrtcFits(Back(crtcs[c], before.crtcs[c]), modes, width, height)
    {
      assert MirrorsCrtc(crtcs[c], before.crtcs[c]) && Undisturbed(crtcs[c], before.crtcs[c]);
      BackWhenUndisturbed(crtcs[c], before.crtcs[c]);
    }
  }

  // ---- Whatever the server answers ----

  /** The screen while the CRTCs are restored, when those marked in `off` could be turned off. */
  ghost function ScreenThen(st: ServerState, off: seq<bool>, modes: seq<Mode>, limits: Limits, screen: Screen): Screen
    requires |off| == |st.crtcs|
  {
    if WithinLimits(screen, limits) && StillOnFit(st, off, modes, screen) then screen else st.screen
  }

  ghost predicate AllComeBack(crtcs: seq<Crtc>, before: ServerState, modes: seq<Mode>, screen: Screen)
    requires |crtcs| == |before.crtcs|
  {
    forall c | 0 <= c < |crtcs| :: CrtcFits(Back(crtcs[c], before.crtcs[c]), modes, screen.width, screen.height)
  }

  ghost predicate UndoingFits(crtcs: seq<Crtc>, before: ServerState, st: ServerState, modes: seq<Mode>,
                              limits: Limits, off: seq<bool>, restored: seq<bool>)
    requires |off| == |st.crtcs|
  {
    var screen := ScreenThen(st, off, modes, limits, before.screen);
    RestoredFit(crtcs, before, restored, modes, screen.width, screen.height)
  }

  /** Undoing from state `st` keeps every enabled CRTC on the screen whatever the server
      answers exactly if all old configurations fit the old size, where that is permitted, and
      either all fit the present size too or everything that is on now fits the old one. */
  lemma WhateverIsAnswered(crtcs: seq<Crtc>, before: ServerState, st: ServerState, modes: seq<Mode>, limits: Limits)
    requires |crtcs| == |before.crtcs| == |st.crtcs|
    ensures (forall off: seq<bool>, restored: seq<bool> | |off| == |restored| == |crtcs| ::
               UndoingFits(crtcs, before, st, modes, limits, off, restored))
            <==> (var old' := before.screen;
                  && (WithinLimits(old', limits) ==> AllComeBack(crtcs, before, modes, old'))
                  && (|| AllComeBack(crtcs, before, modes, st.screen)
                      || (WithinLimits(old', limits) && AllFit(st.crtcs, modes, old'.width, old'.height))))
  {
    var all, none := seq(|crtcs|, _ => true), seq(|crtcs|, _ => false);
    AllRestoredFit(crtcs, before, modes, before.screen, all);
    AllRestoredFit(crtcs, before, modes, st.screen, all);
    assert StillOnFit(st, all, modes, before.screen);
    assert StillOnFit(st, none, modes, before.screen)
      <==> AllFit(st.crtcs, modes, before.screen.width, before.screen.height);
    if forall off: seq<bool>, restored: seq<bool> | |off| == |restored| == |crtcs| ::
        UndoingFits(crtcs, before, st, modes, limits, off, restored) {
      assert UndoingFits(crtcs, before, st, modes, limits, all, all);
      assert UndoingFits(crtcs, before, st, modes, limits, none, all);
    }
  }

  lemma AllRestoredFit(crtcs: seq<Crtc>, before: ServerState, modes: seq<Mode>, screen: Screen, all: seq<bool>)
    requires |all| == |crtcs| == |before.crtcs| && AllTrue(all)
    ensures RestoredFit(crtcs, before, all, modes, screen.width, screen.height)
            <==> AllComeBack(crtcs, before, modes, screen)
  {
    if RestoredFit(crtcs, before, all, modes, screen.width, screen.height) {
      forall c | 0 <= c < |crtcs|
        ensures CrtcFits(Back(crtcs[c], before.crtcs[c]), modes, screen.width, screen.height)
      {
        assert all[c];
      }
    }
  }
}
