/** Completing the output list from the server, and turning it into CRTC targets:
    `set_output_info`, `crtc_add_output`, `set_crtcs`, `set_panning`, `mark_changing_crtcs`. */
module Loading {
  import opened Basics
  import opened Geometry
  import opened Displays
  import opened CrtcSearch
  import opened CrtcPicking

  /** The CRTC that the command line names. */
  datatype CrtcChoice = ByXid(xid: nat) | ByIndex(index: nat)

  /** The mode that the command line asks for; `Lookup` holds the result of searching the output's modes. */
  datatype ModeChoice = Off | Lookup(found: Option<Mode>)

  datatype Request = Request(crtc: CrtcChoice, mode: ModeChoice)

  function ServerMode(modes: seq<Mode>, id: nat): Option<Mode> {
    if id == 0 then None else FindMode(modes, id)
  }

  predicate CanRotate(crtc: Crtc, rotation: Rotation) {
    && !rotation.turn.NoTurn? && rotation.turn in crtc.rotations.turns
    && (rotation.reflectX ==> crtc.rotations.reflectX)
    && (rotation.reflectY ==> crtc.rotations.reflectY)
  }

  method OutputCanUseRotation(d: Display, list: seq<nat>, rotation: Rotation) returns (ok: bool)
    ensures ok <==> forall x | x in list && FindCrtc(d.crtcs[..], x).Some? ::
                      CanRotate(d.crtcs[FindCrtc(d.crtcs[..], x).value], rotation)
  {
    var c := 0;
    while c < |list|
      invariant 0 <= c <= |list|
      invariant forall e | 0 <= e < c && FindCrtc(d.crtcs[..], list[e]).Some? ::
                  CanRotate(d.crtcs[FindCrtc(d.crtcs[..], list[e]).value], rotation)
    {
      var crtc := FindCrtc(d.crtcs[..], list[c]);
      if crtc.Some? && !CanRotate(d.crtcs[crtc.value], rotation) {
        return false;
      }
      c := c + 1;
    }
    ok := true;
  }

  /** The output shows what its CRTC showed when it was loaded. */
  ghost predicate FromServer(o: Output, crtcs: seq<Crtc>, modes: seq<Mode>) {
    match o.crtc
    case None => o.info.crtc == 0 && o.mode.None?
    case Some(c) =>
      && c < |crtcs| && FindCrtc(crtcs, o.info.crtc) == Some(c)
      && o.mode == ServerMode(modes, crtcs[c].info.mode)
      && o.x == crtcs[c].info.x && o.y == crtcs[c].info.y
      && o.rotation == crtcs[c].info.rotation
      && o.transform == crtcs[c].current
  }

  /** What loading establishes for an output: it can be assigned, and without a
      request it mirrors the server. */
  ghost predicate Loaded(o: Output, crtcs: seq<Crtc>, modes: seq<Mode>) {
    && Assignable(o, crtcs)
    && (o.changes == {} ==> FromServer(o, crtcs, modes))
    && (o.mode.Some? ==> o.mode.value in modes)
  }

  function Chosen(o: Output, request: Request): CrtcChoice {
    if ChangeCrtc in o.changes then request.crtc else ByXid(o.info.crtc)
  }

  function Named(crtcs: seq<Crtc>, choice: CrtcChoice): (r: Option<nat>)
    ensures r.Some? ==> r.value < |crtcs|
  {
    match choice
    case ByXid(x) => FindCrtc(crtcs, x)
    case ByIndex(n) => if n < |crtcs| then Some(n) else None
  }

  method SetCrtc(d: Display, o: Output, request: Request) returns (r: Option<Output>)
    ensures Chosen(o, request) == ByXid(0) ==> r == Some(o.(crtc := None))
    ensures Chosen(o, request) != ByXid(0) ==>
              (var c := Named(d.crtcs[..], Chosen(o, request));
               r == if c.Some? && Listed(o, d.crtcs[..], c.value) then Some(o.(crtc := c)) else None)
  {
    var choice := if ChangeCrtc in o.changes then request.crtc else ByXid(o.info.crtc);
    if choice == ByXid(0) {
      return Some(o.(crtc := None));
    }
    var crtc;
    match choice {
      case ByXid(x) =>
        crtc := FindCrtc(d.crtcs[..], x);
      case ByIndex(n) =>
        crtc := if n < d.crtcs.Length then Some(n) else None;
    }
    if crtc.None? {
      return None;
    }
    if d.crtcs[crtc.value].xid !in o.info.crtcs {
      return None;
    }
    r := Some(o.(crtc := crtc));
  }

  /** The CRTC whose mode an output is taken to show: the one that it hangs on, or is assigned to. */
  function ShownOn(crtcs: seq<Crtc>, o: Output): Option<nat> {
    if o.info.crtc != 0 && FindCrtc(crtcs, o.info.crtc).Some? then FindCrtc(crtcs, o.info.crtc) else o.crtc
  }

  /** The id stands for the mode, and 0 for none. */
  ghost predicate IsMode(modes: seq<Mode>, id: nat, mode: Option<Mode>) {
    if id == 0 then mode.None? else mode.Some? && mode.value.id == id && mode == FindMode(modes, id)
  }

  /** The mode is the one asked for, or else what the output is taken to show. */
  ghost predicate HasMode(o: Output, crtcs: seq<Crtc>, modes: seq<Mode>, request: Request, mode: Option<Mode>)
    requires o.crtc.Some? ==> o.crtc.value < |crtcs|
  {
    if ChangeMode in o.changes then
      if request.mode.Off? then mode.None?
      else mode == request.mode.found && mode.Some? && mode.value.id in o.info.modes
    else
      var shown := ShownOn(crtcs, o);
      if shown.None? then mode.None? else IsMode(modes, crtcs[shown.value].info.mode, mode)
  }

  method SetMode(d: Display, o: Output, modes: seq<Mode>, request: Request) returns (r: Option<Output>)
    requires o.crtc.Some? ==> o.crtc.value < d.crtcs.Length
    requires FoundAmong(request, modes)
    ensures r.Some? ==> r.value == o.(mode := r.value.mode) && (r.value.mode.Some? ==> r.value.mode.value in modes)
    ensures r.Some? ==> HasMode(o, d.crtcs[..], modes, request, r.value.mode)
    ensures r.None? <==> forall mode :: !HasMode(o, d.crtcs[..], modes, request, mode)
  {
    if ChangeMode !in o.changes {
      var crtc := if o.info.crtc != 0 then FindCrtc(d.crtcs[..], o.info.crtc) else None;
      var id := 0;
      if crtc.Some? {
        id := d.crtcs[crtc.value].info.mode;
      } else if o.crtc.Some? {
        id := d.crtcs[o.crtc.value].info.mode;
      }
      var mode := ServerMode(modes, id);
      if id != 0 && mode.None? {
        return None;
      }
      assert HasMode(o, d.crtcs[..], modes, request, mode);
      return Some(o.(mode := mode));
    }
    if request.mode.Off? {
      assert HasMode(o, d.crtcs[..], modes, request, None);
      return Some(o.(mode := None));
    }
    var mode := request.mode.found;
    if mode.None? || mode.value.id !in o.info.modes {
      return None;
    }
    assert HasMode(o, d.crtcs[..], modes, request, mode);
    r := Some(o.(mode := mode));
  }

  method SetPosition(d: Display, o: Output) returns (r: Output)
    requires o.crtc.Some? ==> o.crtc.value < d.crtcs.Length
    ensures r == o.(x := r.x, y := r.y)
    ensures (r.x, r.y) == if ChangePosition in o.changes then (o.x, o.y)
                          else if o.crtc.Some? then (d.crtcs[o.crtc.value].info.x, d.crtcs[o.crtc.value].info.y)
                          else (0, 0)
  {
    r := o;
    if ChangePosition !in o.changes {
      if o.crtc.Some? {
        var info := d.crtcs[o.crtc.value].info;
        r := r.(x := info.x, y := info.y);
      } else {
        r := r.(x := 0, y := 0);
      }
    }
  }

  /** Without a CRTC the turn is reset together with the reflection, even a requested one. */
  function WantedRotation(crtcs: seq<Crtc>, o: Output): Rotation
    requires o.crtc.Some? ==> o.crtc.value < |crtcs|
  {
    var shown := if o.crtc.Some? then crtcs[o.crtc.value].info.rotation else UNROTATED;
    var kept := if ChangeRotation !in o.changes && o.crtc.None? then UNROTATED else o.rotation;
    Rotation(if ChangeRotation in o.changes then o.rotation.turn else shown.turn,
             if ChangeReflection in o.changes then kept.reflectX else shown.reflectX,
             if ChangeReflection in o.changes then kept.reflectY else shown.reflectY)
  }

  /** A requested reflection is lost exactly when the output has no CRTC and no turn was requested with it. */
  lemma LostReflection(crtcs: seq<Crtc>, o: Output)
    requires (o.crtc.Some? ==> o.crtc.value < |crtcs|) && ChangeReflection in o.changes
    requires o.rotation.reflectX || o.rotation.reflectY
    ensures var wanted := WantedRotation(crtcs, o);
            (wanted.reflectX != o.rotation.reflectX || wanted.reflectY != o.rotation.reflectY)
            <==> o.crtc.None? && ChangeRotation !in o.changes
  {
  }

  method SetRotation(d: Display, o: Output) returns (r: Option<Output>)
    requires o.crtc.Some? ==> o.crtc.value < d.crtcs.Length
    ensures r.Some? ==> r.value == o.(rotation := WantedRotation(d.crtcs[..], o))
    ensures r.Some? <==> forall x | x in o.info.crtcs && FindCrtc(d.crtcs[..], x).Some? ::
                           CanRotate(d.crtcs[FindCrtc(d.crtcs[..], x).value], WantedRotation(d.crtcs[..], o))
  {
    var rotation := o.rotation;
    if ChangeRotation !in o.changes {
      if o.crtc.Some? {
        rotation := rotation.(turn := d.crtcs[o.crtc.value].info.rotation.turn);
      } else {
        rotation := UNROTATED;
      }
    }
    if ChangeReflection !in o.changes {
      rotation := rotation.(reflectX := false, reflectY := false);
      if o.crtc.Some? {
        var shown := d.crtcs[o.crtc.value].info.rotation;
        rotation := rotation.(reflectX := shown.reflectX, reflectY := shown.reflectY);
      }
    }
    var canRotate := OutputCanUseRotation(d, o.info.crtcs, rotation);
    if !canRotate {
      return None;
    }
    r := Some(o.(rotation := rotation));
  }

  // ---- What becomes of an output ----

  /** `c` is the first CRTC with the id. */
  ghost predicate IsCrtc(crtcs: seq<Crtc>, c: nat, xid: nat) {
    c < |crtcs| && crtcs[c].xid == xid && forall e | 0 <= e < c :: crtcs[e].xid != xid
  }

  /** The CRTC that was requested, by id or by index; id 0 is for none. */
  ghost predicate IsChosen(crtcs: seq<Crtc>, choice: CrtcChoice, crtc: Option<nat>) {
    match choice
    case ByXid(x) => if x == 0 then crtc.None? else crtc.Some? && IsCrtc(crtcs, crtc.value, x)
    case ByIndex(n) => crtc == Some(n) && n < |crtcs|
  }

  /** Everything that was requested for the output stays; but a reflection only together
      with a turn or a CRTC. */
  ghost predicate Honoured(o: Output, info: OutputInfo, request: Request, crtcs: seq<Crtc>, r: Output) {
    && r == o.(info := info, crtc := r.crtc, mode := r.mode, x := r.x, y := r.y, rotation := r.rotation,
               transform := r.transform)
    && (ChangeCrtc in o.changes ==> IsChosen(crtcs, request.crtc, r.crtc))
    && (ChangeMode in o.changes ==>
          if request.mode.Off? then r.mode.None?
          else r.mode.Some? && r.mode == request.mode.found && r.mode.value.id in info.modes)
    && (ChangePosition in o.changes ==> r.x == o.x && r.y == o.y)
    && (ChangeRotation in o.changes ==> r.rotation.turn == o.rotation.turn)
    && (ChangeReflection in o.changes ==>
          if ChangeRotation in o.changes || r.crtc.Some?
          then r.rotation.reflectX == o.rotation.reflectX && r.rotation.reflectY == o.rotation.reflectY
          else !r.rotation.reflectX && !r.rotation.reflectY)
    && (ChangeTransform in o.changes ==> r.transform == o.transform)
  }

  /** Whatever was not requested follows what the server shows on the output's CRTC. */
  ghost predicate FollowsServer(o: Output, info: OutputInfo, crtcs: seq<Crtc>, modes: seq<Mode>, r: Output) {
    && (ChangeCrtc !in o.changes ==> IsChosen(crtcs, ByXid(info.crtc), r.crtc))
    && (ChangeMode !in o.changes ==> FollowsMode(info, crtcs, modes, r))
    && match r.crtc
       case None =>
         && (ChangePosition !in o.changes ==> r.x == 0 && r.y == 0)
         && (ChangeRotation !in o.changes ==> r.rotation.turn == Rotate0)
         && (ChangeReflection !in o.changes ==> !r.rotation.reflectX && !r.rotation.reflectY)
         && (ChangeTransform !in o.changes ==> r.transform == IDENTITY)
       case Some(c) =>
         && c < |crtcs|
         && (ChangePosition !in o.changes ==> r.x == crtcs[c].info.x && r.y == crtcs[c].info.y)
         && (ChangeRotation !in o.changes ==> r.rotation.turn == crtcs[c].info.rotation.turn)
         && (ChangeReflection !in o.changes ==>
               && r.rotation.reflectX == crtcs[c].info.rotation.reflectX
               && r.rotation.reflectY == crtcs[c].info.rotation.reflectY)
         && (ChangeTransform !in o.changes ==> r.transform == crtcs[c].current)
  }

  /** The mode of the CRTC that the output hangs on, or else of the one that it is to have. */
  ghost predicate FollowsMode(info: OutputInfo, crtcs: seq<Crtc>, modes: seq<Mode>, r: Output) {
    if info.crtc != 0 && exists c: nat :: IsCrtc(crtcs, c, info.crtc) then
      forall c: nat | IsCrtc(crtcs, c, info.crtc) :: IsMode(modes, crtcs[c].info.mode, r.mode)
    else
      match r.crtc
      case None => r.mode.None?
      case Some(c) => c < |crtcs| && IsMode(modes, crtcs[c].info.mode, r.mode)
  }

  datatype Axis = AlongX | AlongY

  function AxesOf(alongX: bool, alongY: bool): set<Axis> {
    (if alongX then {AlongX} else {}) + if alongY then {AlongY} else {}
  }

  /** A CRTC can turn the picture so, and reflect it along these axes. */
  ghost predicate Supports(can: Rotations, rotation: Rotation) {
    && rotation.turn in can.turns - {NoTurn}
    && AxesOf(rotation.reflectX, rotation.reflectY) <= AxesOf(can.reflectX, can.reflectY)
  }

  lemma CanRotateMeans(crtc: Crtc, rotation: Rotation)
    ensures CanRotate(crtc, rotation) <==> Supports(crtc.rotations, rotation)
  {
    assert rotation.reflectX <==> AlongX in AxesOf(rotation.reflectX, rotation.reflectY);
    assert rotation.reflectY <==> AlongY in AxesOf(rotation.reflectX, rotation.reflectY);
  }

  /** The CRTC is one of the output's, and all of these support the rotation. */
  ghost predicate IsUsable(info: OutputInfo, crtcs: seq<Crtc>, r: Output) {
    && (r.crtc.Some? ==> r.crtc.value < |crtcs| && crtcs[r.crtc.value].xid in info.crtcs)
    && forall c | 0 <= c < |crtcs| && crtcs[c].xid in info.crtcs && IsCrtc(crtcs, c, crtcs[c].xid) ::
         Supports(crtcs[c].rotations, r.rotation)
  }

  /** What the output may become: as requested, or else as the server has it, and usable. */
  ghost predicate MayBecome(o: Output, info: OutputInfo, request: Request, crtcs: seq<Crtc>, modes: seq<Mode>,
                            r: Output) {
    Honoured(o, info, request, crtcs, r) && FollowsServer(o, info, crtcs, modes, r) && IsUsable(info, crtcs, r)
  }

  lemma FoundIsCrtc(crtcs: seq<Crtc>, c: nat, xid: nat)
    ensures FindCrtc(crtcs, xid) == Some(c) <==> IsCrtc(crtcs, c, xid)
  {
    FoundIsFirst(crtcs, xid, 0);
    if IsCrtc(crtcs, c, xid) {
      var f := FindCrtc(crtcs, xid).value;
      assert !(f < c) && !(c < f);
    }
  }

  lemma {:induction false} FoundIsFirst(crtcs: seq<Crtc>, xid: nat, i: nat)
    requires i <= |crtcs|
    ensures FindCrtcFrom(crtcs, xid, i).Some? ==>
              forall e | i <= e < FindCrtcFrom(crtcs, xid, i).value :: crtcs[e].xid != xid
    decreases |crtcs| - i
  {
    if i < |crtcs| && crtcs[i].xid != xid {
      FoundIsFirst(crtcs, xid, i + 1);
    }
  }

  /** The requested rotations are supported exactly if all CRTCs in the list can rotate so. */
  lemma AllCanRotate(info: OutputInfo, crtcs: seq<Crtc>, rotation: Rotation)
    ensures (forall x | x in info.crtcs && FindCrtc(crtcs, x).Some? ::
               CanRotate(crtcs[FindCrtc(crtcs, x).value], rotation))
            <==> (forall c | 0 <= c < |crtcs| && crtcs[c].xid in info.crtcs && IsCrtc(crtcs, c, crtcs[c].xid) ::
                    Supports(crtcs[c].rotations, rotation))
  {
    forall c | 0 <= c < |crtcs| ensures CanRotate(crtcs[c], rotation) <==> Supports(crtcs[c].rotations, rotation) {
      CanRotateMeans(crtcs[c], rotation);
    }
    forall c, x | 0 <= c < |crtcs| ensures FindCrtc(crtcs, x) == Some(c) <==> IsCrtc(crtcs, c, x) {
      FoundIsCrtc(crtcs, c, x);
    }
  }

  /** The choice is met exactly by the CRTC that it names. */
  lemma NamedIsChosen(crtcs: seq<Crtc>, choice: CrtcChoice, c: nat)
    requires choice != ByXid(0)
    ensures Named(crtcs, choice) == Some(c) <==> IsChosen(crtcs, choice, Some(c))
  {
    if choice.ByXid? {
      FoundIsCrtc(crtcs, c, choice.xid);
    }
  }

  predicate FoundAmong(request: Request, modes: seq<Mode>) {
    request.mode.Lookup? && request.mode.found.Some? ==> request.mode.found.value in modes
  }

  /** Only one CRTC can be the output's. */
  lemma CrtcIsChosen(o: Output, request: Request, crtcs: seq<Crtc>, modes: seq<Mode>, r: Output)
    requires MayBecome(o, o.info, request, crtcs, modes, r)
    ensures if Chosen(o, request) == ByXid(0) then r.crtc.None?
            else r.crtc.Some? && Named(crtcs, Chosen(o, request)) == r.crtc && Listed(o, crtcs, r.crtc.value)
  {
    var choice := Chosen(o, request);
    assert IsChosen(crtcs, choice, r.crtc);
    if choice != ByXid(0) {
      NamedIsChosen(crtcs, choice, r.crtc.value);
    }
  }

  lemma ShownIsFollowed(o: Output, info: OutputInfo, crtcs: seq<Crtc>, modes: seq<Mode>)
    requires o.info == info && (o.crtc.Some? ==> o.crtc.value < |crtcs|)
    ensures var shown := ShownOn(crtcs, o);
            && (shown.Some? ==> shown.value < |crtcs|)
            && (FollowsMode(info, crtcs, modes, o) <==>
                if shown.None? then o.mode.None? else IsMode(modes, crtcs[shown.value].info.mode, o.mode))
  {
    forall c: nat ensures FindCrtc(crtcs, info.crtc) == Some(c) <==> IsCrtc(crtcs, c, info.crtc) {
      FoundIsCrtc(crtcs, c, info.crtc);
    }
  }

  /** The mode that an output may get makes `SetMode` succeed. */
  lemma ModeIsChosen(o: Output, request: Request, crtcs: seq<Crtc>, modes: seq<Mode>, r: Output)
    requires MayBecome(o, o.info, request, crtcs, modes, r)
    ensures r.crtc.Some? ==> r.crtc.value < |crtcs|
    ensures HasMode(o.(crtc := r.crtc), crtcs, modes, request, r.mode)
  {
    ShownIsFollowed(r, o.info, crtcs, modes);
  }

  lemma RotationIsChosen(o: Output, request: Request, crtcs: seq<Crtc>, modes: seq<Mode>, r: Output)
    requires MayBecome(o, o.info, request, crtcs, modes, r)
    ensures r.crtc.Some? ==> r.crtc.value < |crtcs|
    ensures WantedRotation(crtcs, o.(crtc := r.crtc)) == r.rotation
    ensures forall x | x in o.info.crtcs && FindCrtc(crtcs, x).Some? ::
              CanRotate(crtcs[FindCrtc(crtcs, x).value], r.rotation)
  {
    AllCanRotate(o.info, crtcs, r.rotation);
  }

  /** No output at all is possible. */
  ghost predicate Impossible(o: Output, request: Request, crtcs: seq<Crtc>, modes: seq<Mode>) {
    forall r :: !MayBecome(o, o.info, request, crtcs, modes, r)
  }

  lemma NoCrtcIsImpossible(o: Output, request: Request, crtcs: seq<Crtc>, modes: seq<Mode>)
    requires Chosen(o, request) != ByXid(0)
    requires var c := Named(crtcs, Chosen(o, request)); c.None? || !Listed(o, crtcs, c.value)
    ensures Impossible(o, request, crtcs, modes)
  {
    forall r ensures !MayBecome(o, o.info, request, crtcs, modes, r) {
      if MayBecome(o, o.info, request, crtcs, modes, r) {
        CrtcIsChosen(o, request, crtcs, modes, r);
      }
    }
  }

  /** The CRTC that `SetCrtc` finds. */
  ghost predicate HasChosen(o: Output, request: Request, crtcs: seq<Crtc>, crtc: Option<nat>) {
    if Chosen(o, request) == ByXid(0) then crtc.None?
    else crtc.Some? && Named(crtcs, Chosen(o, request)) == crtc && Listed(o, crtcs, crtc.value)
  }

  lemma NoModeIsImpossible(o: Output, request: Request, crtcs: seq<Crtc>, modes: seq<Mode>, crtc: Option<nat>)
    requires HasChosen(o, request, crtcs, crtc)
    requires forall mode :: !HasMode(o.(crtc := crtc), crtcs, modes, request, mode)
    ensures Impossible(o, request, crtcs, modes)
  {
    forall r ensures !MayBecome(o, o.info, request, crtcs, modes, r) {
      if MayBecome(o, o.info, request, crtcs, modes, r) {
        CrtcIsChosen(o, request, crtcs, modes, r);
        ModeIsChosen(o, request, crtcs, modes, r);
      }
    }
  }

  lemma NoRotationIsImpossible(o: Output, request: Request, crtcs: seq<Crtc>, modes: seq<Mode>, crtc: Option<nat>)
    requires HasChosen(o, request, crtcs, crtc)
    requires exists x :: x in o.info.crtcs && FindCrtc(crtcs, x).Some?
                         && !CanRotate(crtcs[FindCrtc(crtcs, x).value], WantedRotation(crtcs, o.(crtc := crtc)))
    ensures Impossible(o, request, crtcs, modes)
  {
    forall r ensures !MayBecome(o, o.info, request, crtcs, modes, r) {
      if MayBecome(o, o.info, request, crtcs, modes, r) {
        CrtcIsChosen(o, request, crtcs, modes, r);
        RotationIsChosen(o, request, crtcs, modes, r);
      }
    }
  }

  /** Place and transform are those that were requested, or those of the CRTC. */
  ghost predicate IsPlaced(o: Output, crtcs: seq<Crtc>, r: Output) {
    match r.crtc
    case None =>
      && (r.x, r.y) == (if ChangePosition in o.changes then (o.x, o.y) else (0, 0))
      && r.transform == if ChangeTransform in o.changes then o.transform else IDENTITY
    case Some(c) =>
      && c < |crtcs|
      && (r.x, r.y) == (if ChangePosition in o.changes then (o.x, o.y) else (crtcs[c].info.x, crtcs[c].info.y))
      && r.transform == if ChangeTransform in o.changes then o.transform else crtcs[c].current
  }

  /** The output that the steps make is possible. */
  lemma MadeIsPossible(o: Output, request: Request, crtcs: seq<Crtc>, modes: seq<Mode>, r: Output)
    requires HasChosen(o, request, crtcs, r.crtc)
    requires r == o.(crtc := r.crtc, mode := r.mode, x := r.x, y := r.y, transform := r.transform,
                     rotation := WantedRotation(crtcs, o.(crtc := r.crtc)))
    requires HasMode(o.(crtc := r.crtc), crtcs, modes, request, r.mode)
    requires IsPlaced(o, crtcs, r)
    requires forall x | x in o.info.crtcs && FindCrtc(crtcs, x).Some? ::
               CanRotate(crtcs[FindCrtc(crtcs, x).value], r.rotation)
    ensures MayBecome(o, o.info, request, crtcs, modes, r)
  {
    var choice := Chosen(o, request);
    if choice != ByXid(0) {
      NamedIsChosen(crtcs, choice, r.crtc.value);
    }
    ShownIsFollowed(r, o.info, crtcs, modes);
    AllCanRotate(o.info, crtcs, r.rotation);
  }

  /** What may become of an output without requests is what the server shows. */
  lemma PossibleIsLoaded(o: Output, request: Request, crtcs: seq<Crtc>, modes: seq<Mode>, r: Output)
    requires MayBecome(o, o.info, request, crtcs, modes, r) && FoundAmong(request, modes)
    ensures Loaded(r, crtcs, modes)
  {
    ShownIsFollowed(r, o.info, crtcs, modes);
    if r.crtc.Some? {
      FoundIsCrtc(crtcs, r.crtc.value, o.info.crtc);
    }
  }

  /** Place and rotation, and the transform. */
  method Place(d: Display, o: Output) returns (r: Option<Output>)
    requires o.crtc.Some? ==> o.crtc.value < d.crtcs.Length
    ensures r.Some? <==> forall x | x in o.info.crtcs && FindCrtc(d.crtcs[..], x).Some? ::
                           CanRotate(d.crtcs[FindCrtc(d.crtcs[..], x).value], WantedRotation(d.crtcs[..], o))
    ensures r.Some? ==> r.value == o.(x := r.value.x, y := r.value.y, transform := r.value.transform,
                                      rotation := WantedRotation(d.crtcs[..], o))
    ensures r.Some? ==> IsPlaced(o, d.crtcs[..], r.value)
  {
    var placed := SetPosition(d, o);
    r := SetRotation(d, placed);
    if r.Some? && ChangeTransform !in o.changes {
      var transform := IDENTITY;
      if o.crtc.Some? {
        transform := d.crtcs[o.crtc.value].current;
      }
      r := Some(r.value.(transform := transform));
    }
  }

  /** Completes an output, if that is possible. */
  method CompleteOutput(d: Display, o: Output, modes: seq<Mode>, request: Request) returns (r: Option<Output>)
    requires FoundAmong(request, modes)
    ensures r.None? ==> Impossible(o, request, d.crtcs[..], modes)
    ensures r.Some? ==> MayBecome(o, o.info, request, d.crtcs[..], modes, r.value)
  {
    ghost var crtcs := d.crtcs[..];
    var withCrtc := SetCrtc(d, o, request);
    if withCrtc.None? {
      NoCrtcIsImpossible(o, request, crtcs, modes);
      return None;
    }
    r := CompleteOnCrtc(d, o, withCrtc.value, modes, request);
  }

  /** The same once its CRTC is known. */
  method CompleteOnCrtc(d: Display, o: Output, withCrtc: Output, modes: seq<Mode>, request: Request)
    returns (r: Option<Output>)
    requires FoundAmong(request, modes)
    requires withCrtc == o.(crtc := withCrtc.crtc) && HasChosen(o, request, d.crtcs[..], withCrtc.crtc)
    ensures r.None? ==> Impossible(o, request, d.crtcs[..], modes)
    ensures r.Some? ==> MayBecome(o, o.info, request, d.crtcs[..], modes, r.value)
  {
    var withMode := SetMode(d, withCrtc, modes, request);
    if withMode.None? {
      NoModeIsImpossible(o, request, d.crtcs[..], modes, withCrtc.crtc);
      return None;
    }
    r := Place(d, withMode.value);
    if r.None? {
      NoRotationIsImpossible(o, request, d.crtcs[..], modes, withCrtc.crtc);
    } else {
      MadeIsPossible(o, request, d.crtcs[..], modes, r.value);
    }
  }

  /** Completes output `i`; returns false where the program stops with an error. */
  method SetOutputInfo(d: Display, i: nat, info: OutputInfo, modes: seq<Mode>, request: Request) returns (ok: bool)
    requires i < d.outputs.Length && FoundAmong(request, modes)
    modifies d.outputs
    ensures forall j | 0 <= j < d.outputs.Length && j != i :: d.outputs[j] == old(d.outputs[j])
    ensures ok ==> Loaded(d.outputs[i], d.crtcs[..], modes)
    ensures ok <==> MayLoad(old(d.outputs[i]), info, request, d.crtcs[..], modes)
    ensures ok ==> MayBecome(old(d.outputs[i]), info, request, d.crtcs[..], modes, d.outputs[i])
  {
    var o := d.outputs[i].(info := info);
    InfoComesLater(d.outputs[i], info, request, d.crtcs[..], modes);
    var completed := CompleteOutput(d, o, modes, request);
    if completed.None? {
      return false;
    }
    PossibleIsLoaded(o, request, d.crtcs[..], modes, completed.value);
    d.outputs[i] := completed.value;
    ok := true;
  }

  /** The server's answer replaces whatever was known of the output before. */
  lemma InfoComesLater(o: Output, info: OutputInfo, request: Request, crtcs: seq<Crtc>, modes: seq<Mode>)
    ensures forall r :: MayBecome(o, info, request, crtcs, modes, r)
                        <==> MayBecome(o.(info := info), info, request, crtcs, modes, r)
  {
  }

  ghost predicate MayLoad(o: Output, info: OutputInfo, request: Request, crtcs: seq<Crtc>, modes: seq<Mode>) {
    exists r :: MayBecome(o, info, request, crtcs, modes, r)
  }

  /** Completes the whole list. */
  method LoadOutputs(d: Display, infos: seq<OutputInfo>, modes: seq<Mode>, requests: seq<Request>) returns (ok: bool)
    requires |infos| == |requests| == d.outputs.Length
    requires forall i | 0 <= i < |requests| :: FoundAmong(requests[i], modes)
    modifies d.outputs
    ensures ok ==> forall i | 0 <= i < d.outputs.Length :: Loaded(d.outputs[i], d.crtcs[..], modes)
    ensures ok <==> forall i | 0 <= i < d.outputs.Length ::
                      MayLoad(old(d.outputs[..])[i], infos[i], requests[i], d.crtcs[..], modes)
    ensures ok ==> forall i | 0 <= i < d.outputs.Length ::
                     MayBecome(old(d.outputs[..])[i], infos[i], requests[i], d.crtcs[..], modes, d.outputs[i])
  {
    ghost var start := d.outputs[..];
    var i := 0;
    while i < d.outputs.Length
      invariant 0 <= i <= d.outputs.Length
      invariant forall j | 0 <= j < i ::
                  && Loaded(d.outputs[j], d.crtcs[..], modes)
                  && MayBecome(start[j], infos[j], requests[j], d.crtcs[..], modes, d.outputs[j])
      invariant forall j | i <= j < d.outputs.Length :: d.outputs[j] == start[j]
    {
      ok := SetOutputInfo(d, i, infos[i], modes, requests[i]);
      if !ok {
        return;
      }
      i := i + 1;
    }
    ok := true;
  }

  // ---- Targets ----

  /** The lit outputs among the first `n` that are assigned to CRTC `c`. */
  function Users(outs: seq<Output>, c: nat, n: nat): (r: seq<nat>)
    requires n <= |outs|
    ensures forall k | 0 <= k < |r| :: r[k] < n && Lit(outs[r[k]]) && outs[r[k]].crtc == Some(c)
    ensures forall j, k | 0 <= j < k < |r| :: r[j] < r[k]
    ensures forall i: nat | i < n && Lit(outs[i]) && outs[i].crtc == Some(c) :: i in r
  {
    if n == 0 then []
    else if Lit(outs[n - 1]) && outs[n - 1].crtc == Some(c) then Users(outs, c, n - 1) + [n - 1]
    else Users(outs, c, n - 1)
  }

  /** The CRTC record after the first `n` outputs were added: the first user decides what it shows. */
  ghost predicate TargetSet(outs: seq<Output>, n: nat, before: Crtc, after: Crtc, c: nat)
    requires n <= |outs|
  {
    var users := Users(outs, c, n);
    if users == [] then after == before
    else
      var o := outs[users[0]];
      after == before.(outputs := users, x := o.x, y := o.y, rotation := o.rotation, mode := o.mode,
          pending := o.transform)
  }

  method CrtcAddOutput(d: Display, c: nat, i: nat)
    requires c < d.crtcs.Length && i < d.outputs.Length
    modifies d.crtcs
    ensures forall j | 0 <= j < d.crtcs.Length && j != c :: d.crtcs[j] == old(d.crtcs[j])
    ensures d.crtcs[c] ==
            (var o, crtc := d.outputs[i], old(d.crtcs[c]);
             if crtc.outputs == []
             then crtc.(outputs := [i], x := o.x, y := o.y, rotation := o.rotation, mode := o.mode,
                        pending := o.transform)
             else crtc.(outputs := crtc.outputs + [i]))
  {
    var crtc, output := d.crtcs[c], d.outputs[i];
    if crtc.outputs == [] {
      crtc := crtc.(x := output.x, y := output.y, rotation := output.rotation, mode := output.mode,
                    pending := output.transform);
    }
    d.crtcs[c] := crtc.(outputs := crtc.outputs + [i]);
  }

  lemma NextTarget(outs: seq<Output>, n: nat, start: Crtc, now: Crtc, next: Crtc, c: nat)
    requires n < |outs| && TargetSet(outs, n, start, now, c) && start.outputs == [] && Lit(outs[n])
    requires if outs[n].crtc != Some(c) then next == now
             else if now.outputs == [] then
               next == now.(outputs := [n], x := outs[n].x, y := outs[n].y, rotation := outs[n].rotation,
                            mode := outs[n].mode, pending := outs[n].transform)
             else next == now.(outputs := now.outputs + [n])
    ensures TargetSet(outs, n + 1, start, next, c)
  {
  }

  /** Requires what `PickCrtcs` promises: no lit output lacks a CRTC. */
  method SetCrtcs(d: Display)
    requires forall c | 0 <= c < d.crtcs.Length :: d.crtcs[c].outputs == []
    requires forall i | 0 <= i < d.outputs.Length && Lit(d.outputs[i]) ::
               d.outputs[i].crtc.Some? && d.outputs[i].crtc.value < d.crtcs.Length
    modifies d.crtcs
    ensures forall c | 0 <= c < d.crtcs.Length ::
              TargetSet(d.outputs[..], d.outputs.Length, old(d.crtcs[..])[c], d.crtcs[c], c)
  {
    ghost var start, outs := d.crtcs[..], d.outputs[..];
    var i := 0;
    while i < d.outputs.Length
      invariant 0 <= i <= d.outputs.Length
      invariant forall c | 0 <= c < d.crtcs.Length :: TargetSet(outs, i, start[c], d.crtcs[c], c)
    {
      if d.outputs[i].mode.Some? {
        ghost var before := d.crtcs[..];
        var c := d.outputs[i].crtc.value;
        CrtcAddOutput(d, c, i);
        forall j | 0 <= j < d.crtcs.Length ensures TargetSet(outs, i + 1, start[j], d.crtcs[j], j) {
          assert TargetSet(outs, i, start[j], before[j], j);
          NextTarget(outs, i, start[j], before[j], d.crtcs[j], j);
        }
      }
      i := i + 1;
    }
  }

  /** The output requests a panning area for CRTC `c`. */
  predicate AsksFor(o: Output, c: nat) {
    o.crtc == Some(c) && ChangePanning in o.changes
  }

  /** Output `i` is the last of the first `n` that requests a panning area for CRTC `c`. */
  ghost predicate LastToAsk(outs: seq<Output>, n: nat, c: nat, i: nat)
    requires n <= |outs|
  {
    i < n && AsksFor(outs[i], c) && forall j | i < j < n :: !AsksFor(outs[j], c)
  }

  ghost predicate NobodyAsks(outs: seq<Output>, n: nat, c: nat)
    requires n <= |outs|
  {
    forall i | 0 <= i < n :: !AsksFor(outs[i], c)
  }

  /** The last of the first `n` outputs that requests an area for CRTC `c` gets it; without a request it stays. */
  ghost predicate PannedAsAsked(outs: seq<Output>, n: nat, c: nat, before: Option<Panning>, after: Option<Panning>)
    requires n <= |outs|
  {
    && (forall i: nat :: LastToAsk(outs, n, c, i) ==> after == Some(outs[i].panning))
    && (NobodyAsks(outs, n, c) ==> after == before)
  }

  lemma {:induction false} SomebodyIsLast(outs: seq<Output>, n: nat, c: nat) returns (i: nat)
    requires n <= |outs| && !NobodyAsks(outs, n, c)
    ensures LastToAsk(outs, n, c, i)
  {
    i := n - 1;
    if !AsksFor(outs[i], c) {
      i := SomebodyIsLast(outs, n - 1, c);
    }
  }

  /** What `set_panning` does to a CRTC, after the first `n` outputs. */
  ghost predicate IsPanned(outs: seq<Output>, n: nat, c: nat, before: Crtc, after: Crtc)
    requires n <= |outs|
  {
    && after == before.(panning := after.panning, changing := before.changing || !NobodyAsks(outs, n, c))
    && PannedAsAsked(outs, n, c, before.panning, after.panning)
  }

  lemma NextPanning(outs: seq<Output>, n: nat, c: nat, before: Crtc, now: Crtc, next: Crtc)
    requires n < |outs| && IsPanned(outs, n, c, before, now)
    requires next == if AsksFor(outs[n], c) then now.(panning := Some(outs[n].panning), changing := true) else now
    ensures IsPanned(outs, n + 1, c, before, next)
  {
    if !AsksFor(outs[n], c) {
      forall i: nat | LastToAsk(outs, n + 1, c, i) ensures LastToAsk(outs, n, c, i) {
      }
      assert NobodyAsks(outs, n + 1, c) <==> NobodyAsks(outs, n, c);
    }
  }

  method SetPanning(d: Display)
    modifies d.crtcs
    ensures forall c | 0 <= c < d.crtcs.Length ::
              IsPanned(d.outputs[..], d.outputs.Length, c, old(d.crtcs[..])[c], d.crtcs[c])
  {
    ghost var start, outs := d.crtcs[..], d.outputs[..];
    var i := 0;
    while i < d.outputs.Length
      invariant 0 <= i <= d.outputs.Length
      invariant forall c | 0 <= c < d.crtcs.Length :: IsPanned(outs, i, c, start[c], d.crtcs[c])
    {
      ghost var now := d.crtcs[..];
      var output := d.outputs[i];
      if output.crtc.Some? && output.crtc.value < d.crtcs.Length && ChangePanning in output.changes {
        var c := output.crtc.value;
        d.crtcs[c] := d.crtcs[c].(panning := Some(output.panning), changing := true);
      }
      forall c | 0 <= c < d.crtcs.Length ensures IsPanned(outs, i + 1, c, start[c], d.crtcs[c]) {
        assert IsPanned(outs, i, c, start[c], now[c]);
        NextPanning(outs, i, c, start[c], now[c], d.crtcs[c]);
      }
      i := i + 1;
    }
  }

  /** Some output that the CRTC showed, or is to show, was changed. */
  ghost predicate Touched(outs: seq<Output>, crtc: Crtc) {
    || (exists e :: 0 <= e < |crtc.info.outputs| && Changed(outs, FindXid(outs, crtc.info.outputs[e])))
    || (exists e :: 0 <= e < |crtc.outputs| && Changed(outs, Some(crtc.outputs[e])))
  }

  predicate Changed(outs: seq<Output>, i: Option<nat>) {
    i.Some? && i.value < |outs| && outs[i.value].changes != {}
  }

  ghost predicate AllKnown(outs: seq<Output>, xids: seq<nat>) {
    forall e | 0 <= e < |xids| :: FindXid(outs, xids[e]).Some?
  }

  ghost predicate ValidIndices(outs: seq<Output>, indices: seq<nat>) {
    forall e | 0 <= e < |indices| :: indices[e] < |outs|
  }

  method MarkCrtc(d: Display, c: nat) returns (ok: bool)
    requires c < d.crtcs.Length && ValidIndices(d.outputs[..], d.crtcs[c].outputs)
    modifies d.crtcs
    ensures forall j | 0 <= j < d.crtcs.Length && j != c :: d.crtcs[j] == old(d.crtcs[j])
    ensures ok <==> AllKnown(d.outputs[..], old(d.crtcs[c]).info.outputs)
    ensures ok ==> (var crtc := old(d.crtcs[c]);
                    d.crtcs[c] == crtc.(changing := crtc.changing || Touched(d.outputs[..], crtc)))
  {
    ghost var outs := d.outputs[..];
    var crtc := d.crtcs[c];
    var changing := crtc.changing;
    // what it showed so far, so that an output that goes dark counts
    var o := 0;
    while o < |crtc.info.outputs|
      invariant 0 <= o <= |crtc.info.outputs|
      invariant forall e | 0 <= e < o :: FindXid(outs, crtc.info.outputs[e]).Some?
      invariant changing <==> || crtc.changing
                              || exists e :: 0 <= e < o && Changed(outs, FindXid(outs, crtc.info.outputs[e]))
    {
      var output := FindXid(d.outputs[..], crtc.info.outputs[o]);
      if output.None? {
        return false;
      }
      if d.outputs[output.value].changes != {} {
        assert Changed(outs, FindXid(outs, crtc.info.outputs[o]));
        changing := true;
      }
      o := o + 1;
    }
    ghost var oldChanged := changing;
    // what it is to show
    o := 0;
    while o < |crtc.outputs|
      invariant 0 <= o <= |crtc.outputs|
      invariant changing <==> oldChanged || exists e :: 0 <= e < o && Changed(outs, Some(crtc.outputs[e]))
    {
      if d.outputs[crtc.outputs[o]].changes != {} {
        assert Changed(outs, Some(crtc.outputs[o]));
        changing := true;
      }
      o := o + 1;
    }
    d.crtcs[c] := crtc.(changing := changing);
    ok := true;
  }

  method MarkChangingCrtcs(d: Display) returns (ok: bool)
    requires forall c | 0 <= c < d.crtcs.Length :: ValidIndices(d.outputs[..], d.crtcs[c].outputs)
    modifies d.crtcs
    ensures ok <==> forall c | 0 <= c < d.crtcs.Length :: AllKnown(d.outputs[..], old(d.crtcs[..])[c].info.outputs)
    ensures ok ==>
              forall c | 0 <= c < d.crtcs.Length ::
                (var crtc := old(d.crtcs[..])[c];
                 d.crtcs[c] == crtc.(changing := crtc.changing || Touched(d.outputs[..], crtc)))
  {
    ghost var start := d.crtcs[..];
    var c := 0;
    while c < d.crtcs.Length
      invariant 0 <= c <= d.crtcs.Length
      invariant forall j | c <= j < d.crtcs.Length :: d.crtcs[j] == start[j]
      invariant forall j | 0 <= j < c ::
                  d.crtcs[j] == start[j].(changing := start[j].changing || Touched(d.outputs[..], start[j]))
      invariant forall j | 0 <= j < c :: AllKnown(d.outputs[..], start[j].info.outputs)
    {
      var marked := MarkCrtc(d, c);
      if !marked {
        return false;
      }
      c := c + 1;
    }
    ok := true;
  }
}
