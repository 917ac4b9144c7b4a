/** Runs of `apply` and `revert` that go wrong: on unlucky refusals, and with a transform
    that another program left waiting on the server. */
module Refusals {
  import opened Basics
  import opened Geometry
  import opened Displays
  import opened ScreenSize
  import opened Server
  import opened Undoing
  import opened Transaction

  function Running(mode: Mode, o: nat): CrtcState {
    CrtcState(Config(mode.id, 0, 0, UNROTATED, [o]), IDENTITY, IDENTITY, None)
  }

  const IDLE := CrtcState(OFF, IDENTITY, IDENTITY, None)

  /** A CRTC record as it is read from the server. */
  function Record(xid: nat, st: CrtcState): Crtc {
    Crtc(xid, st.config, Rotations({Rotate0}, false, false), st.committed, false,
         None, 0, 0, UNROTATED, [], st.committed, None)
  }

  lemma OnlyFits(mode: Mode, o: nat, modes: seq<Mode>, width: int, height: int)
    requires Moderate(mode) && mode.id != 0 && FindMode(modes, mode.id) == Some(mode)
    ensures CrtcFits(Running(mode, o), modes, width, height) <==> mode.width <= width && mode.height <= height
  {
    UntransformedBox(mode, UNROTATED);
  }

  // ---- A restored CRTC that is cut off ----

  /** A server that refuses the panning area of CRTC 0, then to turn that CRTC off, and then to
      restore it. A strict one keeps to the rule that a CRTC must fit the screen, and so refuses
      to restore CRTC 1 as well. */
  predicate Willing(n: nat, strict: bool) {
    n != 3 && n != 4 && n != 7 && (strict ==> n != 8)
  }

  /** The steps of `apply` and `panic` for two CRTCs. CRTC 1 runs a tall mode and is to go dark,
      CRTC 0 is to run a wide one. It does, but its panning area is refused. While undoing, CRTC 0
      cannot be turned off; so the narrow old screen is refused; and the tall mode comes back on
      a screen that is too low for it. A strict server refuses that, and it is lost. */
  method CutOffRun(wide: Mode, tall: Mode, o: Output, panning: Panning, strict: bool) returns (s: Server)
    requires Moderate(wide) && Moderate(tall) && wide.id != 0 && tall.id != 0 && wide.id != tall.id
    requires wide.width > tall.width && tall.height > wide.height
    ensures |s.log| > 0 && StateFits(s.log[0].after, s.modes)
    ensures AlwaysFit(s.log, 0, s.modes) <==> strict
    ensures |s.state.crtcs| == 2 && (strict ==> !IsBack(Running(tall, 1), s.state.crtcs[1]))
  {
    var d;
    d, s := TwoCrtcs(wide, tall, o, panning, strict);
    var st := s.state;
    MakeRoomForBoth(d, s, wide);
    ghost var log := s.log;
    UntilRefused(d, s, wide, o, st.screen);
    LogExtended(log, s.log, 0, s.modes);
    assert StateFits(s.log[0].after, s.modes);
    UndoneWrongly(d, s, wide, tall, o, st, strict);
  }

  /** What the program starts from: CRTC 1 just fills the screen. */
  method TwoCrtcs(wide: Mode, tall: Mode, o: Output, panning: Panning, strict: bool) returns (d: Display, s: Server)
    requires Moderate(wide) && Moderate(tall) && wide.id != 0 && tall.id != 0 && wide.id != tall.id
    ensures fresh(s) && fresh(d) && fresh(d.crtcs) && fresh(d.outputs)
    ensures s.state == ServerState(Screen(tall.width, tall.height, 0, 0), [IDLE, Running(tall, 1)])
    ensures FindMode(s.modes, wide.id) == Some(wide) && FindMode(s.modes, tall.id) == Some(tall)
    ensures StateFits(s.state, s.modes) && s.asked == 0 && s.log == [] && s.limits == Limits(0, 0, 32767, 32767)
    ensures forall n :: s.answers(n) <==> Willing(n, strict)
    ensures Mirrors(d.crtcs[..], s.state) && Wanted(d, wide, o) && d.crtcs[1].mode.None?
    ensures d.crtcs[1].current == d.crtcs[1].pending
  {
    var st := ServerState(Screen(tall.width, tall.height, 0, 0), [IDLE, Running(tall, 1)]);
    s := new Server([wide, tall], Limits(0, 0, 32767, 32767), (n: nat) => Willing(n, strict), st);
    var outputs := new Output[] [o];
    var wanted := Record(1, st.crtcs[0]).(mode := Some(wide), outputs := [0], panning := Some(panning),
                                          changing := true);
    var crtcs := new Crtc[] [wanted, Record(2, st.crtcs[1])];
    d := new Display(outputs, crtcs, wide.width, wide.height);
    TwoModes(wide, tall);
    OnlyFits(tall, 1, s.modes, tall.width, tall.height);
  }

  /** CRTC 0 is off already; CRTC 1 is turned off. */
  method MakeRoomForBoth(d: Display, s: Server, wide: Mode)
    requires d.crtcs.Length == 2 && Mirrors(d.crtcs[..], s.state) && StateFits(s.state, s.modes)
    requires s.state.crtcs[0] == IDLE && s.state.crtcs[1].config.mode != 0 && d.crtcs[1].mode.None?
    requires s.asked == 0 && s.log == [] && s.answers(0)
    modifies d.crtcs, s
    ensures s.asked == 1 && s.state == Configured(old(s.state), 1, OFF)
    ensures d.crtcs[..] == old(d.crtcs[..])
    ensures StateFits(s.state, s.modes) && AlwaysFit(s.log, 0, s.modes)
  {
    ghost var crtcs := d.crtcs[..];
    assert MirrorsCrtc(d.crtcs[0], s.state.crtcs[0]) && MirrorsCrtc(d.crtcs[1], s.state.crtcs[1]);
    var ok := MakeRoom(d, s, 0);
    ghost var log := s.log;
    ok := MakeRoom(d, s, 1);
    LogExtended(log, s.log, 0, s.modes);
    assert d.crtcs[0] == crtcs[0] && d.crtcs[1] == crtcs[1];
  }

  /** CRTC 0 is to run a wide mode that fits the new size. */
  ghost predicate Wanted(d: Display, wide: Mode, o: Output)
    reads d, d.crtcs, d.outputs
  {
    && d.outputs.Length == 1 && d.outputs[0] == o && d.crtcs.Length == 2
    && d.fbWidth == wide.width && d.fbHeight == wide.height
    && (var crtc := d.crtcs[0];
        && crtc.changing && crtc.mode == Some(wide) && crtc.outputs == [0] && crtc.panning.Some?
        && crtc.x == 0 && crtc.y == 0 && crtc.rotation == UNROTATED && crtc.current == crtc.pending)
  }

  /** The steps from there up to the refused panning area. */
  method UntilRefused(d: Display, s: Server, wide: Mode, o: Output, narrow: Screen)
    requires Wanted(d, wide, o) && |s.state.crtcs| == 2
    requires s.state.screen == narrow && narrow.width != wide.width && StateFits(s.state, s.modes)
    requires s.state.crtcs[0] == IDLE && s.state.crtcs[1].config == OFF
    requires Moderate(wide) && wide.id != 0 && FindMode(s.modes, wide.id) == Some(wide)
    requires s.asked == 1 && s.limits == Limits(0, 0, 32767, 32767) && s.answers(2) && !s.answers(3)
    modifies s
    ensures s.asked == 4 && |s.state.crtcs| == 2 && old(s.log) < s.log
    ensures s.state.screen.width == wide.width && s.state.screen.height == wide.height
    ensures s.state.crtcs[0] == Running(wide, o.xid) && s.state.crtcs[1] == old(s.state).crtcs[1]
    ensures StateFits(s.state, s.modes) && AlwaysFit(s.log, |old(s.log)|, s.modes)
  {
    ghost var start := s.log;
    OnlyFits(wide, o.xid, s.modes, wide.width, wide.height);
    ScreenApply(d, s, narrow, Screen(wide.width, wide.height, 0, 0));
    ghost var log := s.log;
    assert Target(d.outputs[..], d.crtcs[0], IDLE).(panning := None) == Running(wide, o.xid);
    var ok := CrtcApply(d, s, 0);
    LogExtended(log, s.log, |start|, s.modes);
  }

  /** Undoing from there: the wide mode stays on, so the old size is refused. */
  method UndoneWrongly(d: Display, s: Server, wide: Mode, tall: Mode, o: Output, st: ServerState, strict: bool)
    requires Mirrors(d.crtcs[..], st) && PendingStays(d.crtcs[..], st, s.state) && d.crtcs.Length == 2
    requires d.crtcs[0].current == d.crtcs[0].pending && d.crtcs[1].current == d.crtcs[1].pending
    requires st == ServerState(Screen(tall.width, tall.height, 0, 0), [IDLE, Running(tall, 1)])
    requires s.state.crtcs[0] == Running(wide, o.xid)
    requires s.state.screen.width == wide.width && s.state.screen.height == wide.height
    requires Moderate(wide) && wide.id != 0 && FindMode(s.modes, wide.id) == Some(wide)
    requires Moderate(tall) && tall.id != 0 && FindMode(s.modes, tall.id) == Some(tall)
    requires wide.width > tall.width && tall.height > wide.height
    requires s.asked == 4 && (forall n :: s.answers(n) <==> Willing(n, strict))
    requires StateFits(s.state, s.modes) && AlwaysFit(s.log, 0, s.modes)
    modifies s
    ensures old(s.log) <= s.log && |s.state.crtcs| == 2
    ensures AlwaysFit(s.log, 0, s.modes) <==> strict
    ensures strict ==> !IsBack(Running(tall, 1), s.state.crtcs[1])
  {
    ghost var log, now := s.log, s.state;
    OnlyFits(wide, o.xid, s.modes, tall.width, tall.height);
    OnlyFits(tall, 1, s.modes, wide.width, wide.height);
    ghost var off, restored;
    off, restored := Revert(d, s, st, st.screen);
    assert RevertNumber(d.crtcs[..], 0, 7) == 7 && RevertNumber(d.crtcs[..], 1, 7) == 8;
    assert !off[0] && !restored[0] && (restored[1] <==> !strict);
    assert !StillOnFit(now, off, s.modes, st.screen);
    assert SamePicture(Back(d.crtcs[1], st.crtcs[1]), Running(tall, 1)) by {
      assert MirrorsCrtc(d.crtcs[1], st.crtcs[1]);
    }
    LogExtended(log, s.log, 0, s.modes);
  }

  /** What decides whether a CRTC fits. */
  predicate SamePicture(a: CrtcState, b: CrtcState) {
    a.config == b.config && a.committed == b.committed
  }

  // ---- A transform that waits on the server ----

  /** CRTC 0 runs a mode, and another program has left a transform waiting on it. Undoing
      turns the CRTC off and on again, and so puts that transform into effect. */
  method StaleIsNotRestored(mode: Mode, stale: Transform, screen: Screen) returns (s: Server)
    requires mode.id != 0 && stale != IDENTITY
    ensures |s.state.crtcs| == 1 && s.state.crtcs[0].config == Running(mode, 1).config
    ensures s.state.crtcs[0].committed == stale
  {
    var st := ServerState(screen, [Running(mode, 1).(pending := stale)]);
    s := new Server([mode], Limits(0, 0, 32767, 32767), _ => true, st);
    var outputs := new Output[0];
    var crtcs := new Crtc[] [Record(1, st.crtcs[0])];
    var d := new Display(outputs, crtcs, screen.width, screen.height);
    assert MirrorsCrtc(d.crtcs[0], st.crtcs[0]);
    ghost var off, restored;
    off, restored := Revert(d, s, st, screen);
    assert restored[0];
  }

  /** And when the CRTC is to run another mode, that transform comes with it. */
  method StaleIsApplied(old': Mode, mode: Mode, o: Output, stale: Transform, screen: Screen) returns (s: Server)
    requires old'.id != 0 && mode.id != 0 && stale != IDENTITY
    ensures |s.state.crtcs| == 1 && s.state.crtcs[0].config.mode == mode.id
    ensures s.state.crtcs[0].committed == stale
  {
    var st := ServerState(screen, [Running(old', 1).(pending := stale)]);
    s := new Server([old', mode], Limits(0, 0, 32767, 32767), _ => true, st);
    var outputs := new Output[] [o];
    var crtcs := new Crtc[] [Record(1, st.crtcs[0]).(mode := Some(mode), outputs := [0], changing := true)];
    var d := new Display(outputs, crtcs, screen.width, screen.height);
    var ok := CrtcApply(d, s, 0);
  }

  lemma TwoModes(wide: Mode, tall: Mode)
    requires wide.id != tall.id
    ensures FindMode([wide, tall], wide.id) == Some(wide) && FindMode([wide, tall], tall.id) == Some(tall)
  {
    assert [wide, tall][1..] == [tall];
  }
}
