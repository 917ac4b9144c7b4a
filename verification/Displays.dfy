/** The records that the display reconfiguration works on: outputs (connectors),
    CRTCs (scan-out engines) and the globals that hold them. */
module Displays {
  import opened Basics
  import opened Geometry

  datatype Change =
    | ChangeCrtc | ChangeMode | ChangeRelation | ChangePosition | ChangeRotation | ChangeReflection
    | ChangeAutomatic | ChangeRefresh | ChangeProperty | ChangeTransform | ChangePanning | ChangeGamma | ChangePrimary

  datatype Relation = LeftOf | RightOf | Above | Below | SameAs

  datatype Panning = Panning(left: int, top: int, width: int, height: int)

  /** What the server reports about an output; an id of 0 means "none". */
  datatype OutputInfo = OutputInfo(crtc: nat, crtcs: seq<nat>, clones: seq<nat>, modes: seq<nat>)

  datatype Output = Output(
    xid: nat,
    name: string,
    info: OutputInfo,
    changes: set<Change>,
    crtc: Option<nat>,        // index of the CRTC assigned to this output
    currentCrtc: Option<nat>, // the assignment before the search started
    mode: Option<Mode>,
    relation: Relation,
    relativeTo: string,
    x: int,
    y: int,
    rotation: Rotation,
    panning: Panning,
    transform: Transform)

  /** What one CRTC shows; mode 0 means the CRTC is off. */
  datatype Config = Config(mode: nat, x: int, y: int, rotation: Rotation, outputs: seq<nat>)

  const OFF := Config(0, 0, 0, UNROTATED, [])

  /** The rotations that a CRTC supports. */
  datatype Rotations = Rotations(turns: set<Turn>, reflectX: bool, reflectY: bool)

  datatype Crtc = Crtc(
    xid: nat,
    info: Config,            // as the server reported it
    rotations: Rotations,
    current: Transform,      // as the server reported it
    changing: bool,
    mode: Option<Mode>,
    x: int,
    y: int,
    rotation: Rotation,
    outputs: seq<nat>,       // indices into the output list
    pending: Transform,
    panning: Option<Panning>)

  /** An output that is to show a picture. */
  predicate Lit(o: Output) {
    o.mode.Some?
  }

  /** The program's globals. */
  class Display {
    const outputs: array<Output>
    const crtcs: array<Crtc>
    var fbWidth: int
    var fbHeight: int

    constructor (outputs: array<Output>, crtcs: array<Crtc>, fbWidth: int, fbHeight: int)
      ensures this.outputs == outputs && this.crtcs == crtcs
      ensures this.fbWidth == fbWidth && this.fbHeight == fbHeight
    {
      this.outputs, this.crtcs, this.fbWidth, this.fbHeight := outputs, crtcs, fbWidth, fbHeight;
    }
  }

  function FindMode(modes: seq<Mode>, id: nat): (r: Option<Mode>)
    ensures r.Some? ==> r.value in modes && r.value.id == id
    ensures r.None? <==> forall m | m in modes :: m.id != id
  {
    if modes == [] then None
    else if modes[0].id == id then Some(modes[0])
    else FindMode(modes[1..], id)
  }

  function FindCrtc(crtcs: seq<Crtc>, xid: nat): (r: Option<nat>)
    ensures r.Some? ==> r.value < |crtcs| && crtcs[r.value].xid == xid
    ensures r.Some? ==> forall j | 0 <= j < r.value :: crtcs[j].xid != xid
    ensures r.None? ==> forall j | 0 <= j < |crtcs| :: crtcs[j].xid != xid
  {
    FindCrtcFrom(crtcs, xid, 0)
  }

  function FindCrtcFrom(crtcs: seq<Crtc>, xid: nat, i: nat): (r: Option<nat>)
    requires i <= |crtcs|
    ensures r.Some? ==> i <= r.value < |crtcs| && crtcs[r.value].xid == xid
    ensures r.Some? ==> forall j | i <= j < r.value :: crtcs[j].xid != xid
    ensures r.None? ==> forall j | i <= j < |crtcs| :: crtcs[j].xid != xid
    decreases |crtcs| - i
  {
    if i == |crtcs| then None
    else if crtcs[i].xid == xid then Some(i)
    else FindCrtcFrom(crtcs, xid, i + 1)
  }
}
