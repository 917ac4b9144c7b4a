# Verification of selected XBMC algorithms

This project models parts of XBMC in Dafny and proves what they promise. The
classes and methods follow the program: what it updates in place is an array or
a field, what it computes in a loop is a loop with invariants. Most methods are
proved against a specification function or predicate, and lemmas prove what that
specification means.

`dafny verify dfyconfig.toml` checks everything.

## What is modelled

**Display reconfiguration** (`xbmc-xrandr.c`). The output list and the CRTC array
are arrays of records that the methods overwrite.

- `Basics`: options, extremes, removal from a list, division that drops the fraction.
- `Geometry`: modes, rotations, affine transforms, and the box a mode covers; a turned
  mode is the upright picture, turned.
- `Displays`: the records and the globals.
- `Chains`: cycles and sets whose members wait for one another.
- `Positions`: relative placement by repeated passes; for every list, whether it ends, and how.
- `Layouts`: what a finished placement means: exactly which relations hold, that the
  corner is at the origin, and when the order of the output list does not matter.
- `ScreenSize`: the framebuffer is the least one that reaches all right and lower edges,
  and what else it takes for every point to be on the screen.
- `CrtcSearch`: the backtracking search that writes its choices into the shared list
  and runs again to restore the best one; it is optimal, and complete.
- `CrtcPicking`: the quick way before that search, and both together.
- `CrtcSharing`: which outputs can be brought together on one CRTC, by either way, and
  when those that share one want the same.
- `Loading`: completing outputs from the server; CRTC targets; marking changes.
- `Showing`: what a CRTC runs, and when that is what each of its outputs asked for.
- `Server`: the display server of the X Resize, Rotate and Reflect Extension
  (section 7.1 of its protocol, RRSetScreenSize and RRSetCrtcConfig). Each request is
  accepted or refused; a refused one changes nothing. A log records every state.
- `Undoing`: `revert` brings the old state back, and exactly when it does; and exactly when
  every enabled CRTC stays within the right and lower edge of the screen meanwhile.
- `Transaction`: `apply` reaches its target or undoes what it did.
- `Refusals`: runs in which that goes wrong.
- `Reconfigure`: the stages together, from the requests to the final state.

**Reference-counted caches.** `LargeTextures` (`GUILargeTextureManager.cpp`) and
`SectionLoading` (`SectionLoader.cpp`, `DynamicDll.cpp`). Ghost ledgers say who owes
a release; the counts are proved to agree with them after every operation and, for
the textures, over whole runs.

**Playback** (`Application.cpp`, `ApplicationPlayer.cpp`). `Playback`: callbacks that
arrive while an item starts, what becomes of them, and the ticket that detects a
cancelled start. `StackedVideos`: the table of end times and seeking in it.

**File item lists** (`FileItem.cpp`, `GUIListItem.cpp`). `FileItemLists`: the lookup
map against a linear scan. `FileItemArchive`: storing and reading back.

**Cue sheets** (`CueDocument.cpp`, `FileItem.cpp`). `CueSheets`: lines, tracks, times,
and the rounding of song durations across three functions. `CueTexts`: sheets as they
are written, and that reading gives back what was written.

**Party mode** (`PartyModeManager.cpp`, `PlayList.cpp`). `PartyMode`: user songs stay
in front of random ones; over whole runs the requests are those of a plain party with
two lists; every request is done or in line once and, if it was queued, in order.

## What the proofs brought to light

The model keeps the code as it is. Where a promise fails, a lemma shows an input on
which it fails, and another says when it holds.

- Outputs that share a CRTC need not want the same mode, place and rotation, and then
  all but the first are shown what they did not ask for. A newcomer is compared with
  what the CRTC showed before, although an output on it is about to change that
  (`NewcomerClones`, `EarlierClones`); on an idle CRTC nothing is compared
  (`LaterClones`, `RequestedTogether`). Nobody is shown anything else if outputs that
  may meet want the same (`CompatibleAgree`), which can be told from the requests
  (`HarmoniousIsCompatible`). Within one search, those that get a CRTC that was in use
  do agree (`BusyCrtcIsShared`).
- `set_positions` reports a loop only if nothing at all can be placed. If unplaced outputs
  wait for one another in a circle and another output can be placed, it never ends, since
  an output that is placed again still counts as progress (`SetPositions`).
- An output with a fixed position and a relation counts as placed before its relation
  is followed. What is placed beside it keeps its place there exactly if the output
  comes first in the list, or its own relation did not move it in the last pass
  (`RelationInTheEnd`, `FixedPlaceIsOverridden`).
- The size of the framebuffer looks at right and lower edges only. A transform that
  moves the picture left or up leaves part of it off the screen (`LeftOfTheScreen`).
- A transformed corner beyond 32767 is left untransformed, so the framebuffer can be
  too small (`UntransformedCorner`). For modes up to that size the box is right exactly
  when no corner leaves the range (`CoverageOfModerate`).
- A transform is sent only where the two local copies differ, and the server's pending one
  is not read. If another client has left one there, `crtc_revert` and `crtc_apply` put
  that into effect instead (`StaleIsNotRestored`, `StaleIsApplied`). The old transform, or
  the new one, takes effect exactly if the copies differ or nothing was pending
  (`BackWhenUndisturbed`, `TargetIfUndisturbed`).
- If turning off a CRTC is refused while undoing, the old screen size may be refused
  too, and restoring the other CRTCs can cut one of them off (`CutOffRun`). The protocol
  asks of a server to refuse a CRTC that leaves the screen; then that CRTC is lost instead.
  Something is cut off exactly if a CRTC that is restored does not fit the size by then
  (`Apply`), so never on the way to a screen that is no smaller (`LargerScreenIsSafe`);
  when undoing is safe whatever the server answers is said by `WhateverIsAnswered`.
- Without a CRTC an output loses its requested reflection unless a turn is requested
  as well (`LostReflection`).
- A stored list that holds at most a parent folder comes back without its flags and
  presentation, and leaves them unread in the archive (`GetList`).
- With URL options ignored, the slow lookup compares whole paths where the fast one
  compares keys. They agree exactly when no item that is the first with its key has a
  path with options (`SlowWayAgrees`).
- Removing or inserting an item keeps the lookup map right only under exact conditions
  on the other items with its key (`RemoveAgrees`, `InsertAgrees`); any order is right
  exactly when no two different items share a key (`EveryOrderAgrees`).
- The last line of a cue sheet held in a tag is lost if no line break ends it
  (`LastLineNeedsABreak`).
- A track before the first FILE line belongs to a file without a name. If the next track
  gets its time after a FILE line, that time is not the end of the former although both
  belong to the same file (`UnnamedFileBreaksStep`, `IndexKeepsStepExactly`).
- The rounding bound on song durations needs the file to reach its last track
  (`BoundForOneTrack`, `FileTooShort`), which is not checked; else it is 74 frames more
  (`DurationsAddUp`).
- Going on with a stack of videos begins up to a second early: the offset is cut to
  whole seconds before it is converted (`ResumeLosesTheFraction`), unlike in `SeekTime`.
- A mixed party never adds more than one music video to a refill: the casts bind to
  the factors, which become 0 (`Split`).
- A song that is queued after the player has gone on past all requests, and before party
  mode hears that playback has started, comes in before the playing one and is never
  played (`LateAddition`, `QueuedAreWaiting`).
- `MovePlaying` works on the queue of the other kind. It does no harm, as the current
  song is on top already whenever it is called (`Process`).

## Model

| member | source | states |
|---|---|---|
| `Geometry.PathBounds` | xbmc-xrandr.c:467-491 | the loop over the points returns the specified bounds of their images |
| `Geometry.BoundsOfIsBounds` | xbmc-xrandr.c:467-491 | those bounds hold every point, and any integer box that does holds them |
| `Geometry.ModeGeometry` | xbmc-xrandr.c:493-511 | the box of the four transformed corners of the turned mode; what that box is, `TurnedPicture` and `ModeBoxIsLeast` say |
| `Geometry.ModeBoxCoversImages` | xbmc-xrandr.c:437-511 | the image of every point of the mode, not only of its corners, lies in that box |
| `Geometry.CoverageCondition` | xbmc-xrandr.c:437-491 | the box covers the whole image if and only if it covers the images of the four corners |
| `Geometry.CoverageOfModerate` | xbmc-xrandr.c:437-491 | for sizes up to 32767 that is so if and only if no corner leaves the coordinate range |
| `Geometry.TurnedPicture` | xbmc-xrandr.c:405-435 | the points of a turned mode are exactly the points of the upright picture turned by quarter circles about its corner |
| `Geometry.ModeBoxIsLeast` | xbmc-xrandr.c:437-511 | the box is the least integer box around the image of every point, where no corner leaves the range |
| `Geometry.TurnIsTransform` | xbmc-xrandr.c:405-511 | a turned mode covers what the upright one covers through the transform that turns it |
| `Chains.StuckIffCyclic` | xbmc-xrandr.c:1881-1944 | a non-empty set of outputs that all wait for members of the set exists if and only if the relations have a cycle |
| `Positions.FindOutputByName` | xbmc-xrandr.c:664-682 | the first output with the name, or none |
| `Positions.VisitOutput` | xbmc-xrandr.c:1887-1939 | one output of a pass: ignored, missing, blocked, or placed where its relation puts it, and nothing else changes; where that is, `Layouts.RelationMeans` says |
| `Positions.PlacingKeepsConsistent` | xbmc-xrandr.c:1910-1939 | placing one output leaves every placed output where its relation puts it |
| `Positions.BlockedAreStuck` | xbmc-xrandr.c:1910-1915 | if every unplaced output is blocked, the unplaced outputs wait for one another |
| `Positions.PlacePass` | xbmc-xrandr.c:1883-1941 | one pass is the visits of all outputs in order: it aborts exactly if a name is missing, reports exactly whether something was blocked or could be placed, and keeps outputs that wait for one another unplaced |
| `Positions.Progress` | xbmc-xrandr.c:1942-1945 | a pass that leaves everything unplaced blocked proves a circle of unplaced outputs in the list it all started from |
| `Positions.Normalise` | xbmc-xrandr.c:1947-1970 | all lit outputs move by the least coordinates, nothing else moves |
| `Positions.SetPositions` | xbmc-xrandr.c:1873-1971 | how it ends, for every list: with an error if a name is missing; else it finishes exactly if no unplaced outputs wait for one another in a circle; else it reports a loop if nothing can be placed, and otherwise never ends. When it finishes, the list is what the passes make of it up to the first that blocks nobody, then normalised; and if every output with a fixed place was where its relation puts it, all relations hold, on the screen (`Layouts.RelationsHold`) |
| `Positions.SettlesOneWay` | xbmc-xrandr.c:1881-1970 | the finished layout is determined by the list |
| `Positions.DeadlockedIffCyclic` | xbmc-xrandr.c:1906-1915 | where no related output has a fixed place, such a circle is any cycle of the relations |
| `Layouts.RelationsHold` | xbmc-xrandr.c:1917-1970 | after placement every relation between lit outputs holds exactly, as the picture of each shows it: sides touch along one line and upper or left edges are level, or the corners are the same; and the other lit outputs moved by one vector |
| `Layouts.RelationMeans` | xbmc-xrandr.c:1917-1939 | that an output is where its relation puts it means, over all points that the two cover: left of its target is wholly left of it, touching it and level at the top, and so for the other relations |
| `Layouts.LeastIsLeast` | xbmc-xrandr.c:1950-1959 | the least coordinates are below all lit outputs and attained, unless all lie beyond 32768 |
| `Layouts.CornerAtOrigin` | xbmc-xrandr.c:1947-1970 | the upper left corner is at the origin if and only if the edges start within 32768 |
| `Layouts.OrderDoesNotMatter` | xbmc-xrandr.c:1881-1970 | with acyclic relations any two orders of the output list give every output the same place |
| `Layouts.RelationSurvives` | xbmc-xrandr.c:1881-1941 | for any list and any kinds of relation: after a pass that blocks nobody a relation holds if and only if its target comes first in the list or was not moved by its own visit |
| `Layouts.RelationInTheEnd` | xbmc-xrandr.c:1881-1970 | so in the layout that a list ends in, whatever places were fixed: the pass in question is the first of it that blocks nobody |
| `Layouts.FixedPlaceIsOverridden` | xbmc-xrandr.c:1906-1939 | an output p with a fixed place and a relation, and o placed beside p: placing finishes, and in the layout of the list o, p, q the relation of o holds if and only if p was in its place already, in that of p, o, q always |
| `ScreenSize.GrowOver` | xbmc-xrandr.c:1987-2017 | the framebuffer grows to the least size that also holds one output and its panning area |
| `ScreenSize.SetScreenSize` | xbmc-xrandr.c:1973-2033 | without a user size: the least framebuffer at or above the minimum and the initial value that covers all outputs and the panning area that each requests or has, and an error if and only if none is permitted; a user size is kept and only checked |
| `ScreenSize.OnScreenMeans` | xbmc-xrandr.c:1987-2008 | every point that an output scans out is on the screen if and only if the test on its right and lower edge holds and its box starts neither left of nor above the screen |
| `ScreenSize.UntransformedOnScreen` | xbmc-xrandr.c:1947-2008 | without a transform the box starts at the place of the output, so the test and a place within the screen suffice |
| `ScreenSize.TurnedPictureFits` | xbmc-xrandr.c:1987-2008 | the edge test without a transform says that every point of the turned picture ends on the screen |
| `ScreenSize.LeftOfTheScreen` | xbmc-xrandr.c:1987-2008 | a transform that moves the picture left: the test passes, and part of it is off the screen |
| `ScreenSize.UntransformedCorner` | xbmc-xrandr.c:458-462 | a framebuffer that passes the test and is too small for the image |
| `CrtcSearch.CheckCrtcForOutput` | xbmc-xrandr.c:1792-1853 | true exactly if the CRTC is listed, its state matches, and every other user may be cloned |
| `CrtcSearch.SuitsMeans` | xbmc-xrandr.c:1792-1853 | so the test means: listed, showing all that the output wants if it is in use, and every other lit output on it may be cloned |
| `CrtcSearch.DisableOutputs` | xbmc-xrandr.c:2036-2044 | the later outputs lose their CRTC, the earlier ones and all other fields stay |
| `CrtcSearch.SuitsIsAllowed` | xbmc-xrandr.c:2084-2087 | with the later outputs switched off, the test on the shared list is the test on the assignment being built |
| `CrtcSearch.ChoiceExplored` | xbmc-xrandr.c:2089-2096 | the best continuation of a choice bounds every assignment that makes it |
| `CrtcSearch.TryChoice` | xbmc-xrandr.c:2064-2095 | one choice, searched to the end: its score is attained and not exceeded |
| `CrtcSearch.TryEntry` | xbmc-xrandr.c:2076-2101 | one entry of the CRTC list: the best score so far bounds all entries tried |
| `CrtcSearch.RestoreBest` | xbmc-xrandr.c:2102-2107 | running the search again below the best choice leaves an optimal assignment in the list |
| `CrtcSearch.PickCrtcsScore` | xbmc-xrandr.c:2049-2110 | the score is the maximum over all admissible assignments of the remaining outputs, and the list is left with an admissible one that attains it; an error if and only if a listed CRTC is unknown |
| `CrtcSearch.MostOutputsThenMostKept` | xbmc-xrandr.c:2089-2096 | up to 1000 outputs, the best score lights as many as possible and then keeps the most connections |
| `CrtcSearch.ScoreCounts` | xbmc-xrandr.c:2064-2070 | the score is 1000 for each output in the set of those with a CRTC and 1 for each that keeps its own |
| `CrtcSearch.CompleteIfPossible` | xbmc-xrandr.c:2049-2110 | every lit output gets a CRTC whenever some admissible assignment gives each one |
| `CrtcSearch.BusyCrtcIsShared` | xbmc-xrandr.c:1838-1851 | in an assignment that the search admits, outputs that share a CRTC which was in use want what that CRTC showed before, and so the same mode, place and rotation |
| `CrtcSearch.IdleCrtcIsShared` | xbmc-xrandr.c:1824-1852 | on an idle CRTC they need not: the search gives one to two outputs whatever they want to show |
| `CrtcPicking.FindCrtcForOutput` | xbmc-xrandr.c:1855-1871 | the first CRTC of the list that suits, or none, and then none suits |
| `CrtcPicking.MatchSpareCrtcs` | xbmc-xrandr.c:2120-2138 | it is content if and only if every changed lit output that came with a CRTC was alone on it and every other one finds one that suits, in list order; then exactly those are given, each the first that suits; otherwise it stops at the first output of which that fails |
| `CrtcPicking.ContentIfServable` | xbmc-xrandr.c:2120-2138 | the specified matching is content exactly so, and leaves exactly that |
| `CrtcPicking.QuickMatchKeeps` | xbmc-xrandr.c:2120-2138 | the quick way changes only the CRTCs of marked outputs, to listed ones, and if it is content every lit output has one |
| `CrtcPicking.SearchCrtcs` | xbmc-xrandr.c:2148-2157 | the search gives an optimal complete assignment, or an error means that none is admissible |
| `CrtcPicking.MarkMoved` | xbmc-xrandr.c:2151-2157 | an error exactly if a lit output has no CRTC; an unmarked output that moved gets a mark, and only such |
| `CrtcPicking.PickCrtcs` | xbmc-xrandr.c:2115-2158 | on return the CRTCs come from the quick way exactly if every changed lit output was alone on its CRTC or finds one, and otherwise from an optimal search behind it; an error means that no complete assignment is admissible |
| `CrtcPicking.PickedMeans` | xbmc-xrandr.c:2115-2158 | which way was taken, told from the list before |
| `CrtcPicking.PickedGivesAll` | xbmc-xrandr.c:2115-2158 | by either way every lit output has a CRTC of its own list and an unmarked output its old one |
| `CrtcSharing.PickedMeets` | xbmc-xrandr.c:2115-2158 | by either way two outputs end up on one CRTC only if they may meet: they can use a common CRTC, and one may clone the other or they started on one |
| `CrtcSharing.CompatibleAgree` | xbmc-xrandr.c:1838-1851 | if outputs that may meet want the same mode, place, rotation and transform, so do all that share a CRTC |
| `CrtcSharing.LaterClones` | xbmc-xrandr.c:1824-1852 | each way of meeting is needed in that condition: the later output may clone the earlier, on an idle CRTC |
| `CrtcSharing.EarlierClones` | xbmc-xrandr.c:1838-1851 | the earlier may clone the later, which is about to change what the CRTC shows |
| `CrtcSharing.NewcomerClones` | xbmc-xrandr.c:2120-2137 | the same in the other order, by the quick way: an output is put on a CRTC in use and will show what it did not ask for |
| `CrtcSharing.RequestedTogether` | xbmc-xrandr.c:2127-2131 | two outputs that were put on one idle CRTC by request |
| `Loading.SetMode` | xbmc-xrandr.c:1094-1137 | the requested mode, or the one shown; an error exactly if it is unknown or the output does not have it |
| `Loading.SetRotation` | xbmc-xrandr.c:1154-1173 | the requested turn and reflection, or those of the CRTC; an error exactly if some CRTC of the output cannot show them |
| `Loading.LostReflection` | xbmc-xrandr.c:1154-1169 | a requested reflection is lost if and only if the output has no CRTC and no turn was requested |
| `Loading.SetOutputInfo` | xbmc-xrandr.c:1058-1214 | it succeeds if and only if some output is possible, and gives one: what was requested stays (a reflection only with a turn or a CRTC), everything else follows what the server shows, transform included, and the CRTC is listed and every listed one can rotate so; no other output changes |
| `Loading.CompleteOutput` | xbmc-xrandr.c:1058-1214 | the steps on one output: an output that is possible, or none is |
| `Loading.PossibleIsLoaded` | xbmc-xrandr.c:1058-1214 | an output without requests then mirrors the server, and can be assigned |
| `Loading.LoadOutputs` | xbmc-xrandr.c:1675-1757 | so for every output of the list, and it fails exactly if one is impossible |
| `Loading.SetCrtcs` | xbmc-xrandr.c:1306-1316 | each CRTC gets exactly the lit outputs assigned to it, in order, and the state of the first; no lit output lacks a CRTC |
| `Loading.SetPanning` | xbmc-xrandr.c:1318-1336 | a CRTC gets the panning area of the last output in the list that is on it and requests one, and a mark; without such an output both stay |
| `Loading.MarkCrtc` | xbmc-xrandr.c:1764-1785 | a CRTC is marked exactly if an output that it showed or is to show was changed |
| `Loading.MarkChangingCrtcs` | xbmc-xrandr.c:1759-1787 | every CRTC is so marked, or an old output is unknown |
| `Server.Server.SetCrtcConfig` | xbmc-xrandr.c:1489-1491 | an accepted configuration takes effect with the pending transform; a refused one changes nothing |
| `Server.Server.SetScreenSize` | xbmc-xrandr.c:1524-1541 | the size changes exactly if it is in range and every enabled CRTC fits |
| `Undoing.CrtcDisable` | xbmc-xrandr.c:1418-1428 | off with the pending transform, or unchanged; on-screen CRTCs stay on screen |
| `Undoing.CrtcRevert` | xbmc-xrandr.c:1444-1461 | a revert is accepted exactly as the server is willing and gives back mode, place, rotation and outputs, with the old transform if one is sent and whatever waited on the server otherwise; it touches no other CRTC; every state fits if and only if it is refused or what comes back fits |
| `Undoing.BackWhenUndisturbed` | xbmc-xrandr.c:1455-1456 | so a CRTC comes back as it was if and only if the two local transforms differ or nothing was pending on the server |
| `Undoing.DisableAll` | xbmc-xrandr.c:1548-1550 | exactly the CRTCs whose request is accepted are off, the others unchanged; every state on the way fits |
| `Undoing.RevertAll` | xbmc-xrandr.c:1553-1555 | exactly the CRTCs whose request is accepted come back so; every state fits if and only if those fit the screen |
| `Undoing.Resize` | xbmc-xrandr.c:1551-1555 | the old size and then every CRTC, with the same condition |
| `Undoing.Revert` | xbmc-xrandr.c:1543-1556 | the old size is accepted if and only if every CRTC that stayed on fits it; every state on the way fits if and only if the restored CRTCs fit the size that the screen has by then; if all requests are accepted, the old state is back if and only if no foreign transform was pending where none is sent |
| `Transaction.MakeRoom` | xbmc-xrandr.c:1602-1642 | a CRTC is turned off exactly if it is to be off or does not fit the new size, and is then marked if it stays in use |
| `Transaction.DisableUnfit` | xbmc-xrandr.c:1598-1642 | so for all CRTCs, up to the first refusal |
| `Transaction.RoomMeansFit` | xbmc-xrandr.c:1612-1638 | after that loop every CRTC that is still on fits the new size |
| `Transaction.ScreenApply` | xbmc-xrandr.c:1524-1541 | the resize is accepted and keeps every enabled CRTC on the screen |
| `Transaction.CrtcApply` | xbmc-xrandr.c:1463-1507 | a marked CRTC gets its target exactly if the server is willing, with its own transform if one is sent and whatever waited on the server otherwise; an unmarked one is left alone |
| `Transaction.TargetIfUndisturbed` | xbmc-xrandr.c:1493-1494 | so it gets its own transform if and only if the two local ones differ or nothing was pending on the server |
| `Transaction.ApplyReaches` | xbmc-xrandr.c:1471-1472 | skipping an unmarked CRTC is right: it kept its state or was turned off on purpose |
| `Transaction.SetCrtcConfigs` | xbmc-xrandr.c:1649-1660 | every CRTC reaches its target, up to the first refusal |
| `Transaction.TryApply` | xbmc-xrandr.c:1583-1660 | the three steps up to the first refusal |
| `Transaction.Apply` | xbmc-xrandr.c:1563-1660 | success: every CRTC has reached its target. Failure at any request: if the undoing is accepted, the old screen and every CRTC are back, panning aside, if and only if no foreign transform was pending where none is sent. Each enabled CRTC stays within the right and lower edge after every request if and only if it succeeded or the restored CRTCs fit the size that the screen has by then |
| `Undoing.Panic` | xbmc-xrandr.c:1558-1581 | undoing, before or after the resize, with those conditions |
| `Undoing.LargerScreenIsSafe` | xbmc-xrandr.c:1543-1556 | a condition known beforehand: on a new size no smaller than the old one nothing that is restored is cut off, whatever is refused |
| `Undoing.WhateverIsAnswered` | xbmc-xrandr.c:1543-1556 | undoing keeps every CRTC on the screen whatever the server answers if and only if all old configurations fit the old size, where that is permitted, and they all fit the present size too or all that is on fits the old one |
| `Refusals.CutOffRun` | xbmc-xrandr.c:1543-1660 | refusals in a whole run from a state that fits: a restored CRTC is cut off, or, with a server that keeps every CRTC on the screen, is not restored |
| `Refusals.StaleIsNotRestored` | xbmc-xrandr.c:1272-1284 | with a transform of another client pending, undoing puts that into effect, all requests accepted |
| `Refusals.StaleIsApplied` | xbmc-xrandr.c:1493-1497 | and so does applying a new mode |
| `Reconfigure.PlacingIsMarked` | xbmc-xrandr.c:1938-1969 | an output that placement left without a mark is exactly as it was loaded |
| `Reconfigure.UnmarkedKeepsOutputs` | xbmc-xrandr.c:1759-1787 | an unmarked CRTC already hangs on exactly the outputs it is to drive |
| `Reconfigure.ReachedMeansShown` | xbmc-xrandr.c:1463-1472 | a CRTC that reached its target shows what its first output asked for, marked or not, if and only if no foreign transform came with it |
| `Showing.AsAskedMeansAgreement` | xbmc-xrandr.c:1288-1304 | every lit output is shown what it asked for if and only if outputs that share a CRTC asked for the same |
| `Showing.HarmoniousIsCompatible` | xbmc-xrandr.c:1917-1939 | if outputs that may meet ask for the same before placement, with the same fixed place or relation, they do so after it |
| `Reconfigure.PickedIsArranged` | xbmc-xrandr.c:2893-2896 | placed outputs with the CRTCs picked for them: each lit one has one, and the relations hold as before |
| `Reconfigure.PickingKeepsFit` | xbmc-xrandr.c:2894-2896 | assigning CRTCs keeps the fit |
| `Reconfigure.Place` | xbmc-xrandr.c:2893-2894 | placed outputs and a framebuffer within the limits that holds them |
| `Reconfigure.Assign` | xbmc-xrandr.c:2893-2896 | placed outputs that keep their identity and requests, each lit one with a CRTC; those that share one agree if the outputs are harmonious |
| `Reconfigure.PlanTargets` | xbmc-xrandr.c:2898-2963 | CRTC targets made of the assigned outputs, with the panning area of the last that requests one or the old area, marked exactly where an output changed or an area was requested; an error exactly if an old output is unknown |
| `Reconfigure.OldOutputsKnown` | xbmc-xrandr.c:1764-1775 | with answers that agree the old outputs are known, so that error cannot happen |
| `Reconfigure.Plan` | xbmc-xrandr.c:2888-2963 | everything that `apply` needs, panning areas included, or an error before the first request, which has a reason |
| `Reconfigure.PlanIsReady` | xbmc-xrandr.c:2888-2973 | the plan meets the demands of `apply`, and every target fits the framebuffer unless a foreign transform comes with it |
| `Reconfigure.Commit` | xbmc-xrandr.c:1583-1660 | after success a CRTC shows what its first output asked for if and only if no foreign transform came with it, every other CRTC is off, panning areas are as the last request has them or as before, and all outputs get what they asked for if and only if those that share a CRTC agree; a CRTC that no changed output concerns and that fits was never touched; after failure the old state is back under the same condition |
| `Reconfigure.AllHavePanning` | xbmc-xrandr.c:1318-1336 | a CRTC in use ends with the panning area of the last output on it that requests one, or with the area it had |
| `Reconfigure.UnconcernedIsQuiet` | xbmc-xrandr.c:1471-1642 | a CRTC that no changed output hangs on or is put on is neither marked nor disturbed |
| `Reconfigure.Run` | xbmc-xrandr.c:2888-2976 | the whole run. Success: the relations hold, each CRTC shows its outputs if and only if no foreign transform comes with it, and has the panning area of the last output that requests one, or the one it had; if nothing is pending on the server, every output gets what it asked for when outputs that may meet ask for the same and fixed places fit their relations; CRTCs that no change concerns were never touched. Failure: the old configuration is back under the same condition, or nothing was sent, since there is no layout, no permitted size or no complete assignment. On the way an enabled CRTC passes the right or lower edge of the screen exactly if undoing strands it |
| `Reconfigure.RunRequests` | xbmc-xrandr.c:2888-2976 | so from the command-line requests on: each output becomes what its request and the server make of it, or there is an error as one is impossible |
| `LargeTextures.LargeTextureManager.AddRef` | xbmc/GUILargeTextureManager.cpp:102-105 | count and ledger grow together |
| `LargeTextures.LargeTextureManager.DecrRef` | xbmc/GUILargeTextureManager.cpp:107-120 | count and ledger shrink together; an unused image gets its time to go |
| `LargeTextures.LargeTextureManager.GetImage` | xbmc/GUILargeTextureManager.cpp:162-183 | a loaded image is handed out; a first request adds one user, else nothing changes |
| `LargeTextures.LargeTextureManager.QueueImage` | xbmc/GUILargeTextureManager.cpp:212-233 | a path is queued at most once, the empty path never; the ledger grows by one |
| `LargeTextures.LargeTextureManager.StartJob` | xbmc/GUILargeTextureManager.cpp:229-232 | a new image behind the queued ones with a fresh job and one user |
| `LargeTextures.LargeTextureManager.ReleaseImage` | xbmc/GUILargeTextureManager.cpp:185-210 | an image goes exactly with its last client, unless it is loaded and may linger; others keep their counts, unknown paths change nothing |
| `LargeTextures.LargeTextureManager.CancelJob` | xbmc/GUILargeTextureManager.cpp:198-209 | a queued image and its job go with the last client |
| `LargeTextures.LargeTextureManager.OnJobComplete` | xbmc/GUILargeTextureManager.cpp:235-252 | the image of a known job becomes loaded with its texture; a cancelled job changes nothing |
| `LargeTextures.LargeTextureManager.CleanupUnusedImages` | xbmc/GUILargeTextureManager.cpp:147-160 | exactly the loaded images that are unused for long enough go |
| `LargeTextures.Step` | xbmc/GUILargeTextureManager.cpp:147-252 | each operation changes the outstanding requests of a path by what it asks or releases |
| `LargeTextures.Run` | xbmc/GUILargeTextureManager.cpp:147-252 | over every run in which clients release what they requested: each path once, live images exactly those in the lists, each count the requests outstanding |
| `SectionLoading.SectionLoader.LoadDLL` | xbmc/SectionLoader.cpp:45-75 | one more user of the named library, ignoring case, or a new entry if it can be loaded, which fails exactly if it cannot; failure changes nothing |
| `SectionLoading.KeyMeans` | xbmc/SectionLoader.cpp:50-59 | names are compared letter by letter, capital or small |
| `SectionLoading.SectionLoader.Leave` | xbmc/SectionLoader.cpp:86-103 | one user less; an unused library goes at once or starts its delay |
| `SectionLoading.SectionLoader.UnloadDLL` | xbmc/SectionLoader.cpp:77-105 | the loop takes one user off the named library and no other |
| `SectionLoading.SectionLoader.UnloadDelayed` | xbmc/SectionLoader.cpp:107-125 | the first library unused for more than 30 seconds goes, and only it |
| `SectionLoading.DelayRunsFromTheLastUser` | xbmc/SectionLoader.cpp:86-125 | the delay is counted from when the last user left, modulo 2^32 ticks |
| `SectionLoading.LoadBalances` | xbmc/SectionLoader.cpp:45-75 | loading keeps every count equal to the number of loaded wrappers naming the library |
| `SectionLoading.UnloadBalances` | xbmc/SectionLoader.cpp:77-105 | unloading keeps it, and the count is never below one before |
| `SectionLoading.UnusedEntryGoes` | xbmc/SectionLoader.cpp:115-123 | dropping an unused library takes it from nobody |
| `SectionLoading.DllDynamic.Load` | xbmc/DynamicDll.cpp:46-62 | loaded exactly if a handle is held: if one was, or the library is listed or loadable and its symbols resolve; unresolved symbols give the handle back |
| `SectionLoading.DllDynamic.Unload` | xbmc/DynamicDll.cpp:64-69 | no handle is held afterwards; without one nothing changes |
| `SectionLoading.DllDynamic.SetFile` | xbmc/DynamicDll.cpp:86-93 | the name changes exactly if no library is held |
| `SectionLoading.DllDynamic.EnableDelayedUnload` | xbmc/DynamicDll.cpp:76-84 | the mode changes exactly if no library is held |
| `SectionLoading.HeldIsLive` | xbmc/DynamicDll.cpp:46-69 | no wrapper holds a released library, and the library it holds counts it |
| `SectionLoading.CountIsLoadedWrappers` | xbmc/SectionLoader.cpp:45-125 | each count is the number of loaded wrappers that name the library, ignoring case |
| `Playback.ApplicationPlayer.ClosePlayerGapless` | xbmc/ApplicationPlayer.cpp:61-82 | the player stays exactly if it can go on without a gap and is the wanted one; a ticket is taken either way |
| `Playback.ApplicationPlayer.OpenFile` | xbmc/ApplicationPlayer.cpp:103-124 | cancelled if and only if another open or close took a ticket in between, below 2^32 operations |
| `Playback.SameTicket` | xbmc/ApplicationPlayer.cpp:112-117 | the counter shows its old value exactly after a multiple of 2^32 tickets |
| `Playback.Application.Receive` | xbmc/Application.cpp:3558-3650 | while starting a callback is recorded and nothing is posted; otherwise one message is |
| `Playback.Application.RemoveIgnored` | xbmc/Application.cpp:3414-3431 | the messages about the previous item go, and no others |
| `Playback.UnrelatedAreKept` | xbmc/Application.cpp:3414-3431 | of the messages in the queue exactly those that have nothing to do with playing are kept, in order |
| `Playback.Application.Finish` | xbmc/Application.cpp:3511-3553 | the recorded state is made up for by at most one message |
| `Playback.Application.PlayFile` | xbmc/Application.cpp:3409-3556 | no report of the previous item survives and nothing is posted while starting; the result is a failure without a player or if opening fails, and cancelled if others took tickets; afterwards only what is made up for is new |
| `Playback.Application.BeginStarting` | xbmc/Application.cpp:3409-3448 | the queue is cleaned, the player stays if it can go on, and what closing reports is forgotten |
| `Playback.Application.Open` | xbmc/Application.cpp:3450-3468 | the player that is left opens the file, or a new one, or it fails |
| `Playback.MadeUp` | xbmc/Application.cpp:3511-3553 | after a start the message for the last report of the new item is posted, or that playing stopped when nothing is left to play, or nothing |
| `Playback.LastIsRecorded` | xbmc/Application.cpp:3558-3650 | what is recorded is the last report by its place, however many queue requests follow |
| `Playback.RecordedIsLast` | xbmc/Application.cpp:3558-3650 | what is recorded is the last callback other than a queue request |
| `Playback.OneMessageForTheLastCallback` | xbmc/Application.cpp:3514-3544 | after a successful start the last callback of the new item yields exactly one message, and none without a callback |
| `Playback.Application.Run` | xbmc/Application.cpp:3409-3556 | over any run of starts with callbacks at every point, all reports are about the current item |
| `StackedVideos.Application.BuildTable` | xbmc/Application.cpp:3140-3161 | each end is the start plus the whole seconds of the part; no table if a part cannot be measured |
| `StackedVideos.TableIsNonDecreasing` | xbmc/Application.cpp:3144-3161 | durations that are not negative give end times that do not decrease |
| `StackedVideos.Application.SeekTime` | xbmc/Application.cpp:4858-4891 | the unique part shown at the time is chosen, and `GetTime` of the place sought is at most 1/1000 s early in the same part and 1/75 s in a new one |
| `StackedVideos.Application.Resume` | xbmc/Application.cpp:3189-3207 | the unique part shown at the time is chosen, and `GetTime` of its start is less than a second early |
| `StackedVideos.ResumeLosesTheFraction` | xbmc/Application.cpp:3199-3200 | the bound of a seek holds if and only if the fraction of the second is below 1/75 |
| `FileItemLists.FileItemList.Contains` | xbmc/FileItem.cpp:1759-1774 | an item is there if and only if one of the list has the path asked for; with the map and options ignored, the same path without its options |
| `FileItemLists.FileItemList.Get` | xbmc/FileItem.cpp:1944-1965 | the first such item, or none and then there is none |
| `FileItemLists.FileItemList.FoundIsAsked` | xbmc/FileItem.cpp:1759-1774 | the scan by key finds exactly such items |
| `FileItemLists.AddAgrees` | xbmc/FileItem.cpp:1805-1811 | adding at the end keeps map and scan in agreement, even for a key that is there already |
| `FileItemLists.InsertAgrees` | xbmc/FileItem.cpp:1822-1838 | inserting keeps it if and only if the key is new, or its first item stays in front |
| `FileItemLists.RemoveAgrees` | xbmc/FileItem.cpp:1840-1871 | removing keeps it if and only if no other item has the key |
| `FileItemLists.EveryOrderAgrees` | xbmc/FileItem.cpp:2084-2088 | every order keeps it if and only if no two different items share a key |
| `FileItemLists.SlowWayAgrees` | xbmc/FileItem.cpp:1759-1774 | with options ignored, the slow and the fast way find the same for every question if and only if the path of each item that is the first with its key carries no options |
| `FileItemLists.FileItemList.Add` | xbmc/FileItem.cpp:1805-1820 | the item is at the end and the map agrees |
| `FileItemLists.FileItemList.AddFront` | xbmc/FileItem.cpp:1822-1838 | the item is at its place, and the map agrees exactly under the condition above |
| `FileItemLists.FileItemList.RemoveItem` | xbmc/FileItem.cpp:1840-1856 | the first occurrence of this very item goes, and the map agrees exactly under the condition above |
| `FileItemLists.FileItemList.RemoveAt` | xbmc/FileItem.cpp:1858-1871 | so by position; a position out of range changes nothing |
| `FileItemLists.FileItemList.Swap` | xbmc/FileItem.cpp:3182-3186 | the two items change places |
| `FileItemLists.FileItemList.Reorder` | xbmc/FileItem.cpp:2084-2088 | any permutation of the items keeps the agreement while keys are distinct |
| `FileItemLists.FileItemList.Clear` | xbmc/FileItem.cpp:1776-1803 | no items, no entries, plain presentation |
| `FileItemLists.FileItemList.SetFastLookup` | xbmc/FileItem.cpp:1741-1757 | the map is built anew and agrees, or is empty |
| `FileItemLists.FileItemList.SetIgnoreURLOptions` | xbmc/FileItem.cpp:1730-1739 | the map agrees under the new keys |
| `FileItemArchive.MergedAll` | xbmc/guilib/GUIListItem.cpp:297-323 | reading entries one by one gives the union of the maps: read properties win, read art does not |
| `FileItemArchive.Reader.GetEntries` | xbmc/guilib/GUIListItem.cpp:297-323 | reads back a stored map, whatever the order it was walked in |
| `FileItemArchive.Reader.GetGuiItem` | xbmc/guilib/GUIListItem.cpp:253-326 | reads back the part that every list item has |
| `FileItemArchive.Reader.GetItem` | xbmc/FileItem.cpp:474-578 | reads back all fields of a stored item and stops where the next one begins |
| `FileItemArchive.FreshItemIsRestored` | xbmc/FileItem.cpp:533-577 | into a new object the item comes back as it was stored |
| `FileItemArchive.GetPresentation` | xbmc/FileItem.cpp:2172-2200 | reads back sort state, views and content |
| `FileItemArchive.GetItems` | xbmc/FileItem.cpp:2202-2207 | reads back the entries in order, each into a new object |
| `FileItemArchive.GetList` | xbmc/FileItem.cpp:2090-2212 | a stored list comes back whole behind the receiver's own parent folder, with a map that agrees, and is the stored list if the two parent folders are the same or neither has one; one with only a parent folder comes back bare |
| `FileItemArchive.ParentAndEntries` | xbmc/FileItem.cpp:2096-2100 | the entries that are stored are all items but a parent folder in front |
| `FileItemArchive.SameParentBringsAllBack` | xbmc/FileItem.cpp:2096-2212 | so with the same parent folder nothing is lost |
| `FileItemArchive.OverlaidMeans` | xbmc/FileItem.cpp:533-577 | into an object with values of its own: stored fields win, of properties the stored, of art the old ones, and tags where one was stored |
| `CueSheets.ExtractTimeFromIndex` | xbmc/CueDocument.cpp:445-467 | the loop drops the index number and yields the time of the line, or -1 when malformed; which time, `CueTexts.TimeIsRead` says |
| `CueSheets.StartsMeans` | xbmc/CueDocument.cpp:312-312 | a keyword is recognised by its letters, capital or small |
| `CueTexts.TimeIsRead` | xbmc/CueDocument.cpp:445-467 | for all minutes, seconds and frames in decimal, with any leading zeros: the line yields 4500 mm + 75 ss + ff |
| `CueTexts.SignIsRead` | xbmc/CueDocument.cpp:462-466 | with a sign, and without any digit |
| `CueTexts.NoTimeFails` | xbmc/CueDocument.cpp:321-326 | without colons the line fails the sheet |
| `CueTexts.SplitTrackFails` | xbmc/CueDocument.cpp:314-318 | so does a time after the file changed within a track |
| `CueTexts.EarlyTimeIsDropped` | xbmc/CueDocument.cpp:327-331 | a time in front of all tracks is dropped |
| `CueTexts.UnnumberedTrack` | xbmc/CueDocument.cpp:347-361 | a track without a number gets its place in the sheet |
| `CueTexts.OtherLinesAreIgnored` | xbmc/CueDocument.cpp:312-399 | a line with none of the keywords changes nothing |
| `CueTexts.QuotedIsRead` | xbmc/CueDocument.cpp:419-436 | a name in quotes is read without them |
| `CueTexts.UnquotedIsRead` | xbmc/CueDocument.cpp:419-436 | one without quotes is read without the blanks around it |
| `CueSheets.BufferReader.ReadLine` | xbmc/CueDocument.cpp:129-149 | the next line that is not blank, trimmed; the rest follows |
| `CueSheets.LastLineNeedsABreak` | xbmc/CueDocument.cpp:129-149 | what follows the last line break adds no line |
| `CueSheets.BreakEndsLine` | xbmc/CueDocument.cpp:129-149 | with a line break behind it the same text is one more line, unless it is blank |
| `CueSheets.CueDocument.ParseLine` | xbmc/CueDocument.cpp:312-399 | the effect of one line, or the failure |
| `CueSheets.CueDocument.ParseTag` | xbmc/CueDocument.cpp:294-413 | the whole loop over all lines, with the end of the last track reset |
| `CueSheets.LinesKeepStep` | xbmc/CueDocument.cpp:308-400 | over any lines every track keeps ending where the next in its file starts |
| `CueSheets.ParsedEndsMeetStarts` | xbmc/CueDocument.cpp:294-413 | in every sheet that parses with named files, a track ends where the next in the same file starts, and at 0 otherwise |
| `CueSheets.IndexKeepsStepExactly` | xbmc/CueDocument.cpp:319-338 | an INDEX 01 line keeps ends and starts together if and only if the condition on the last two tracks and the current file holds |
| `CueSheets.UnnamedFileBreaksStep` | xbmc/CueDocument.cpp:327-331 | a sheet with two tracks before its first named file parses, and the ends do not meet the starts |
| `CueSheets.LoadTracks` | xbmc/FileItem.cpp:1629-1676 | the durations of exactly the songs that belong to the file, in order, and their sum |
| `CueSheets.RoundingError` | xbmc/CueDocument.cpp:264-267 | rounding is off by at most 37 frames if and only if the length is at least -37 or falls short of that by whole seconds |
| `CueSheets.ShortTracksLookLast` | xbmc/FileItem.cpp:1660-1663 | a track has no duration exactly if it is shorter than 38 frames |
| `CueSheets.DurationsAddUp` | xbmc/FileItem.cpp:1629-1675 | the durations of an n-track file sum to the file within 37 frames a track, and above by at most 74 more if the file is over before its last track |
| `CueSheets.LoadEmbedded` | xbmc/FileItem.cpp:1589-1676 | from the text to the songs: it succeeds exactly if the sheet parses and has tracks, with a duration for each track; a sheet with named files whose tracks follow one another by at least 38 frames gives songs that sum to the file within that bound |
| `CueTexts.LinesAreRead` | xbmc/CueDocument.cpp:129-149 | lines are read as they were written, whatever blanks are around them and however they end |
| `CueTexts.SheetIsRead` | xbmc/CueDocument.cpp:294-413 | a whole sheet is read as it was written: album, files, numbers, titles, artists, and each track starts at its written time and ends at that of the next in the same file |
| `CueTexts.ReadSheet` | xbmc/CueDocument.cpp:294-413 | so after `ParseTag` on the written text |
| `CueTexts.LoadWritten` | xbmc/FileItem.cpp:1589-1676 | and after loading: the songs sum to the recording within 37 frames a track, told from the written times |
| `CueSheets.CueDocument.UseFile` | xbmc/FileItem.cpp:1602-1605 | afterwards every track belongs to the file that carries the sheet |
| `CueSheets.CueDocument.UpdateMediaFile` | xbmc/CueDocument.cpp:203-210 | exactly the tracks of the old file get the new one |
| `CueSheets.BoundForOneTrack` | xbmc/FileItem.cpp:1660-1663 | for one track that bound holds if and only if the file reaches the track, or misses it by whole seconds |
| `CueSheets.FileTooShort` | xbmc/FileItem.cpp:1660-1663 | a file that is over before its last track |
| `PartyMode.Insert` | xbmc/playlists/PlayList.cpp:143-157 | the loop inserts all songs at the place, or appends them |
| `PartyMode.ReapingShifts` | xbmc/PartyModeManager.cpp:455-477 | playing on keeps user songs at exactly positions 1 to the last user song |
| `PartyMode.InsertingExtends` | xbmc/PartyModeManager.cpp:240-267 | so does adding user songs |
| `PartyMode.QueuedComeLast` | xbmc/PartyModeManager.cpp:245-263 | queued songs come behind every earlier request in line, and the song on top stays |
| `PartyMode.PlayedNowComeFirst` | xbmc/PartyModeManager.cpp:245-266 | songs played at once come before every request in line, and the song on top stays |
| `PartyMode.Manager.AddUserSongs` | xbmc/PartyModeManager.cpp:240-297 | wherever the player is: the songs are in their place, the user songs in front, the requests in line in order before or behind the new ones, and playing at once refills the queue |
| `PartyMode.Manager.OnSongChange` | xbmc/PartyModeManager.cpp:231-238 | when playback starts, the songs before the current one go, the user songs stay in front, the requests passed are done, and a refill brings the queue to the larger of its size and 10 |
| `PartyMode.Manager.ReapSongs` | xbmc/PartyModeManager.cpp:455-477 | exactly the songs before the current one go |
| `PartyMode.Manager.MovePlaying` | xbmc/PartyModeManager.cpp:479-500 | the song at the current position comes to the top of the queue of the other kind, and only if that position is not 0 |
| `PartyMode.Manager.Split` | xbmc/PartyModeManager.cpp:318-336 | the two counts fill the gap; from two missing songs on all are songs |
| `PartyMode.Manager.AddRandomSongs` | xbmc/PartyModeManager.cpp:308-437 | random songs only behind the others; success fills the queue to 10, an error switches party mode off |
| `PartyMode.Manager.AddToHistory` | xbmc/PartyModeManager.cpp:687-692 | the latest songs: with a limit the history keeps as many as the limit allows, without one all |
| `PartyMode.Manager.Play` | xbmc/PlayListPlayer.cpp:258-281 | plays a song, the last one for a position beyond the end: the songs before it go, the requests passed are done, and the queue is refilled |
| `PartyMode.LeavingServes` | xbmc/PartyModeManager.cpp:455-477 | songs that leave the front of the queue serve the requests in line in order |
| `PartyMode.EveryRequestOnce` | xbmc/PartyModeManager.cpp:240-297 | every request is done or in line exactly once, whatever happens |
| `PartyMode.QueuedInOrder` | xbmc/PartyModeManager.cpp:240-297 | requests that nobody plays at once are played in the order of asking |
| `PartyMode.OnlyQueuedInOrder` | xbmc/PartyModeManager.cpp:240-297 | without songs played at once, so are all |
| `PartyMode.Manager.MovePlayer` | xbmc/PlayListPlayer.cpp:258-281 | the player goes to a song, the last one for a position beyond the end |
| `PartyMode.QueuedAreWaiting` | xbmc/PartyModeManager.cpp:245-263 | queued songs wait to be played if and only if the player has not passed all requests; if it has, exactly so many of them are never played |
| `PartyMode.NotAheadOnceStarted` | xbmc/PartyModeManager.cpp:231-238 | that can be only between a move of the player and the start of playback |
| `PartyMode.PlayingKeepsItsPlace` | xbmc/PartyModeManager.cpp:245-257 | in the queue: the playing song keeps its position if songs come in behind it, and moves back by their number otherwise |
| `PartyMode.LateAddition` | xbmc/PartyModeManager.cpp:455-477 | a song queued in between that takes the place of the playing one, unplayed |
| `PartyMode.Run` | xbmc/PartyModeManager.cpp:231-477 | over any run of queueing, playing at once, moves of the player and starts of playback the requests are those of a plain party, each done or in line once; those not played at once keep their order, and while party mode is on, with a kind that it can refill, the queue stays at least 10 deep |

## Left out

- Positions.SetPositions: is cut off after a given number of passes, because the program may never end; the contract says for every list and every limit above its length how it ends, and so for which it does not.
- Positions.SetPositions: with an output that has both a fixed position and a relation, and is not where that puts it, relations need not hold; which of them do is said by `Layouts.RelationInTheEnd`.
- Reconfigure.Run: assumes that the server's answers about outputs and CRTCs agree with each other, and takes the number of placement passes and the screen's size in millimetres as parameters.
- CrtcPicking.PickCrtcs: the reason for an error is given for up to 1000 outputs; beyond, 1000 kept connections outweigh one lit output.
- Undoing.Revert: does not restore panning areas, as the program does not.
- Server.Server.SetCrtcConfig: may refuse any request, and may accept one that leaves the screen, although the protocol asks it to refuse that; its own reasons are not modelled. A refusal is a reply that the program reads; protocol errors, on which the client library ends the program, are not modelled.
- Playback.Application.PlayFile: callbacks about the closed item are taken to come before the play state is reset, as the program assumes.
- LargeTextures.LargeTextureManager.ReleaseImage: a client may not release an image in the cache that it does not hold, which the program asserts.
- FileItemArchive.Reader.GetTags: no radio tag may be among the stored ones; the program would read it into an object that does not exist.
- FileItemLists.FileItemList.Reorder: says that the map stays right when keys are distinct; that this is needed is `EveryOrderAgrees`.
- CueSheets.DurationsAddUp: one direction; the exact condition is given for one track, for more tracks the errors can cancel.
- PartyMode.Manager.Play: takes every song to start; skipping songs that fail to play and expanding playlists within the queue are left to the playlist player.
- CueTexts.SheetIsRead: is about sheets with the lines of the album first and then each track's number, title, artist and time; what a line does in any other order, `CueSheets.CueDocument.ParseLine` says.
- SectionLoading.SectionLoader.LoadDLL: whether a library can be loaded, and its symbols resolved, is a parameter.
- Reconfigure.Run: the reason for an error without a request is given for up to 1000 outputs and where the passes allowed outnumber them.
- CueSheets.CueDocument.GetMediaFiles: gives the files in the order of their tracks, not sorted; the caller treats each alike.
- PartyMode.Manager.MovePlaying: the current position has to be within the queue of the other kind when it is not 0; the program does not check that.
- Reconfigure.Run: says nothing about what is cut off on the way when the user chose the screen's size, or a foreign transform is pending (`Apply` covers that); and of outputs it promises the right and lower edges, see `ScreenSize.OnScreenMeans`.
- Reconfigure.RunRequests: outputs named on the command line that the server does not report; the program warns and goes on.
- X11 calls, the wire's 16-bit positions and sizes, overflow of 32-bit integers, fixed-point transforms (reals here) and projective ones.
- Servers before version 1.3 of the extension, the query output, argument parsing, `--scale-from`, automatic modes, choosing a mode by name or preference, output properties, gamma, the primary output, dry runs and server grabs.
- Filling in the millimetre size of the screen from its resolution.
- Texture decoding, the texture cache and the job manager: a job is a fresh id and a completion. The branch for a shared texture cache is not modelled.
- Loading and releasing library code: a library is a fresh handle. `UnloadAll`, and wrappers that are destroyed, which is `Unload`.
- Locks: each critical section is one step. Python, announcements and window changes around playback; volume; replay of streamed or remote items.
- Times of stacked videos that come from the database; floating-point rounding (reals here).
- `Append`, `Assign` and `Copy` of lists, which only repeat `Add`; sorting criteria (any order here); items that change their path while in a list.
- The codecs of tags, property values and dates, which are taken to be inverses; the replace-listing flag, which is not stored.
- Cue sheets in files of their own, path resolution, character sets, and replay gain lines, on which the program throws when the value is missing; copying tag fields into songs.
- Which songs the database offers, the playlist's order numbers and announcements, switching party mode on, and statistics.
