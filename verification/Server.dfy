/** The display server as the program sees it. Every request is accepted or
    refused; a refused request changes nothing. The log records each request. */
module Server {
  import opened Basics
  import opened Geometry
  import opened Displays
  import opened ScreenSize

  /** `config` and `committed` are in effect; `pending` takes effect with the next accepted configuration. */
  datatype CrtcState = CrtcState(config: Config, committed: Transform, pending: Transform, panning: Option<Panning>)

  datatype Screen = Screen(width: int, height: int, mmWidth: int, mmHeight: int)

  datatype ServerState = ServerState(screen: Screen, crtcs: seq<CrtcState>)

  datatype Reply = Reply(accepted: bool, after: ServerState)

  /** The right and bottom edges of an enabled CRTC lie within the given size. */
  ghost predicate CrtcFits(crtc: CrtcState, modes: seq<Mode>, width: int, height: int) {
    crtc.config.mode != 0 ==>
      match FindMode(modes, crtc.config.mode)
      case None => false
      case Some(mode) =>
        var box := ModeBox(mode, crtc.config.rotation, crtc.committed.matrix);
        crtc.config.x + box.x2 <= width && crtc.config.y + box.y2 <= height
  }

  ghost predicate AllFit(crtcs: seq<CrtcState>, modes: seq<Mode>, width: int, height: int) {
    forall c | 0 <= c < |crtcs| :: CrtcFits(crtcs[c], modes, width, height)
  }

  ghost predicate StateFits(st: ServerState, modes: seq<Mode>) {
    AllFit(st.crtcs, modes, st.screen.width, st.screen.height)
  }

  predicate WithinLimits(screen: Screen, limits: Limits) {
    limits.minWidth <= screen.width <= limits.maxWidth && limits.minHeight <= screen.height <= limits.maxHeight
  }

  // ---- The effect of accepted requests ----

  function Configured(st: ServerState, c: nat, config: Config): ServerState
    requires c < |st.crtcs|
  {
    var crtc := st.crtcs[c];
    st.(crtcs := st.crtcs[c := crtc.(config := config, committed := crtc.pending)])
  }

  function TransformSet(st: ServerState, c: nat, transform: Transform): ServerState
    requires c < |st.crtcs|
  {
    st.(crtcs := st.crtcs[c := st.crtcs[c].(pending := transform)])
  }

  function PanningSet(st: ServerState, c: nat, panning: Option<Panning>): ServerState
    requires c < |st.crtcs|
  {
    st.(crtcs := st.crtcs[c := st.crtcs[c].(panning := panning)])
  }

  /** A mode comes with outputs, and outputs with a mode. */
  predicate Matches(config: Config) {
    config.mode == 0 <==> config.outputs == []
  }

  class Server {
    const modes: seq<Mode>
    const limits: Limits
    const answers: nat -> bool // whether the server is willing to accept its n-th request
    var state: ServerState
    var asked: nat
    ghost var log: seq<Reply>

    constructor (modes: seq<Mode>, limits: Limits, answers: nat -> bool, state: ServerState)
      ensures this.modes == modes && this.limits == limits && this.answers == answers && this.state == state
      ensures asked == 0 && log == []
    {
      this.modes, this.limits, this.answers, this.state, asked, log := modes, limits, answers, state, 0, [];
    }

    /** RRSetCrtcConfig. The server may refuse a well-formed request for reasons of its own. */
    method SetCrtcConfig(c: nat, config: Config) returns (ok: bool)
      requires c < |state.crtcs|
      modifies this
      ensures ok <==> Matches(config) && answers(old(asked))
      ensures state == if ok then Configured(old(state), c, config) else old(state)
      ensures log == old(log) + [Reply(ok, state)] && asked == old(asked) + 1
    {
      ok := Matches(config) && answers(asked);
      if ok {
        state := Configured(state, c, config);
      }
      asked := asked + 1;
      log := log + [Reply(ok, state)];
    }

    /** RRSetCrtcTransform: only the pending transform changes. */
    method SetCrtcTransform(c: nat, transform: Transform)
      requires c < |state.crtcs|
      modifies this
      ensures state == TransformSet(old(state), c, transform)
      ensures log == old(log) + [Reply(true, state)] && asked == old(asked) + 1
    {
      state := TransformSet(state, c, transform);
      asked := asked + 1;
      log := log + [Reply(true, state)];
    }

    /** RRSetPanning. */
    method SetPanning(c: nat, panning: Option<Panning>) returns (ok: bool)
      requires c < |state.crtcs|
      modifies this
      ensures ok <==> answers(old(asked))
      ensures state == if ok then PanningSet(old(state), c, panning) else old(state)
      ensures log == old(log) + [Reply(ok, state)] && asked == old(asked) + 1
    {
      ok := answers(asked);
      asked := asked + 1;
      if ok {
        state := PanningSet(state, c, panning);
      }
      log := log + [Reply(ok, state)];
    }

    /** RRSetScreenSize has no reply that the program waits for. It is refused
        exactly when the size is out of range or an enabled CRTC would not fit. */
    method SetScreenSize(screen: Screen)
      modifies this
      ensures var ok := WithinLimits(screen, limits) && AllFit(old(state).crtcs, modes, screen.width, screen.height);
              && state == (if ok then old(state).(screen := screen) else old(state))
              && log == old(log) + [Reply(ok, state)] && asked == old(asked) + 1
    {
      var fits := AllFitNow(screen.width, screen.height);
      var ok := WithinLimits(screen, limits) && fits;
      if ok {
        state := state.(screen := screen);
      }
      asked := asked + 1;
      log := log + [Reply(ok, state)];
    }

    method AllFitNow(width: int, height: int) returns (ok: bool)
      ensures ok <==> AllFit(state.crtcs, modes, width, height)
    {
      var c := 0;
      while c < |state.crtcs|
        invariant 0 <= c <= |state.crtcs|
        invariant forall k | 0 <= k < c :: CrtcFits(state.crtcs[k], modes, width, height)
      {
        var crtc := state.crtcs[c];
        if crtc.config.mode != 0 {
          var mode := FindMode(modes, crtc.config.mode);
          if mode.None? {
            return false;
          }
          var box := ModeBox(mode.value, crtc.config.rotation, crtc.committed.matrix);
          if crtc.config.x + box.x2 > width || crtc.config.y + box.y2 > height {
            return false;
          }
        }
        c := c + 1;
      }
      ok := true;
    }
  }
}
