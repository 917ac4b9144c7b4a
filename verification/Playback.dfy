/** Starting playback while player callbacks come in from other threads:
    the start and finish sections of `CApplication::PlayFile`, the callbacks,
    and the ticket counter of `CApplicationPlayer`. */
module Playback {
  import opened Basics

  datatype PlayState = Idle | Starting | Playing | Ended | Stopped

  datatype Kind =
    | PlaybackStarted | PlaybackEnded | PlaybackStopped
    | PlaylistChanged | PlaylistPlayerStopped | PlaylistPlayerStarted | PlaylistPlayerChanged
    | QueueNextItem | Unrelated(id: nat)

  datatype Callback = OnStarted | OnEnded | OnStopped | OnQueueNext

  datatype Result = Ok | Fail | Canceled

  /** The messages about the previous item that a new start discards. */
  predicate Ignored(kind: Kind) {
    !kind.Unrelated?
  }

  /** The messages that report what a player did. */
  predicate Reports(kind: Kind) {
    kind.PlaybackStarted? || kind.PlaybackEnded? || kind.PlaybackStopped? || kind.QueueNextItem?
  }

  /** The messages of the list at the given places, in order. */
  ghost predicate IsPart(messages: seq<Kind>, part: seq<Kind>, at: seq<nat>) {
    && |at| == |part| && (forall k | 0 <= k < |at| :: at[k] < |messages| && part[k] == messages[at[k]])
    && forall j, k | 0 <= j < k < |at| :: at[j] < at[k]
  }

  /** Exactly the messages that have nothing to do with playing survive, in their order. */
  ghost predicate UnrelatedSurvive(messages: seq<Kind>, part: seq<Kind>) {
    exists at :: IsPart(messages, part, at) && AreUnrelated(messages, at)
  }

  ghost predicate AreUnrelated(messages: seq<Kind>, at: seq<nat>) {
    && (forall k | k in at :: k < |messages|)
    && forall i: nat | i < |messages| :: i in at <==> messages[i].Unrelated?
  }

  lemma {:induction false} KeptSurvive(messages: seq<Kind>) returns (at: seq<nat>)
    ensures IsPart(messages, Kept(messages), at) && AreUnrelated(messages, at)
  {
    at := [];
    if messages != [] {
      var n := |messages| - 1;
      var front := messages[..n];
      at := KeptSurvive(front);
      if messages[n].Unrelated? {
        OneMoreSurvives(front, messages[n], Kept(front), at);
        assert front + [messages[n]] == messages;
        at := at + [n];
      }
    }
  }

  lemma OneMoreSurvives(front: seq<Kind>, last: Kind, part: seq<Kind>, at: seq<nat>)
    requires IsPart(front, part, at) && AreUnrelated(front, at) && last.Unrelated?
    ensures IsPart(front + [last], part + [last], at + [|front|])
    ensures AreUnrelated(front + [last], at + [|front|])
  {
    var n, messages, next := |front|, front + [last], at + [|front|];
    forall j, k | 0 <= j < k < |next| ensures next[j] < next[k] {
      assert at[j] in at;
    }
    forall i: nat | i <= n ensures i in next <==> messages[i].Unrelated? {
      assert i in next <==> i in at || i == n;
    }
  }

  /** Of the old messages exactly the unrelated ones are kept. */
  lemma UnrelatedAreKept(messages: seq<Kind>)
    ensures UnrelatedSurvive(messages, Kept(messages))
  {
    var at := KeptSurvive(messages);
  }

  function Kept(messages: seq<Kind>): (r: seq<Kind>)
    ensures forall k | 0 <= k < |r| :: !Ignored(r[k])
  {
    if messages == [] then []
    else
      var last := |messages| - 1;
      Kept(messages[..last]) + if Ignored(messages[last]) then [] else [messages[last]]
  }

  /** Nothing in the queue is about what a player did. */
  ghost predicate NoReports(messages: seq<Kind>) {
    forall k | 0 <= k < |messages| :: !Reports(messages[k])
  }

  function StateAfter(callback: Callback, state: PlayState): PlayState {
    match callback
    case OnStarted => Playing
    case OnEnded => Ended
    case OnStopped => Stopped
    case OnQueueNext => state
  }

  function MessageOf(callback: Callback): Kind {
    match callback
    case OnStarted => PlaybackStarted
    case OnEnded => PlaybackEnded
    case OnStopped => PlaybackStopped
    case OnQueueNext => QueueNextItem
  }

  /** Each callback has been posted, in order. */
  ghost predicate AllPosted(before: seq<Kind>, after: seq<Kind>, callbacks: seq<Callback>) {
    && |after| == |before| + |callbacks| && before <= after
    && forall j | 0 <= j < |callbacks| :: after[|before| + j] == MessageOf(callbacks[j])
  }

  /** The state that a run of callbacks records. */
  function Recorded(callbacks: seq<Callback>, state: PlayState): PlayState {
    if callbacks == [] then state
    else StateAfter(callbacks[|callbacks| - 1], Recorded(callbacks[..|callbacks| - 1], state))
  }

  /** The last callback that is recorded, if any. */
  function LastRecorded(callbacks: seq<Callback>): (r: Option<Callback>)
    ensures r.Some? ==> !r.value.OnQueueNext?
  {
    if callbacks == [] then None
    else if callbacks[|callbacks| - 1].OnQueueNext? then LastRecorded(callbacks[..|callbacks| - 1])
    else Some(callbacks[|callbacks| - 1])
  }

  lemma {:induction false} RecordedIsLast(callbacks: seq<Callback>, state: PlayState)
    ensures Recorded(callbacks, state) ==
            match LastRecorded(callbacks)
            case None => state
            case Some(c) => StateAfter(c, state)
  {
    if callbacks != [] {
      RecordedIsLast(callbacks[..|callbacks| - 1], state);
    }
  }

  const TICKETS := 0x1_0000_0000

  /** A player and whether it can go on from one file to the next without a gap. */
  datatype Player = Player(name: string, gapless: bool)

  /** What other threads may do to the player meanwhile. */
  datatype Operation = Open | Close | Discard | Create(player: Player)

  /** How many tickets a run of operations takes, and the player it leaves. */
  function Taken(ops: seq<Operation>, player: Option<Player>): (r: (nat, Option<Player>)) {
    if ops == [] then (0, player)
    else
      var before := Taken(ops[..|ops| - 1], player);
      match ops[|ops| - 1]
      case Open => (before.0 + if before.1.Some? then 1 else 0, before.1)
      case Close => (before.0 + if before.1.Some? then 1 else 0, before.1)
      case Discard => (before.0 + if before.1.Some? then 1 else 0, None)
      case Create(p) => (before.0, if before.1.Some? then before.1 else Some(p))
  }

  class ApplicationPlayer {
    var player: Option<Player>
    var opSeq: nat

    constructor ()
      ensures player.None? && opSeq == 0
    {
      player, opSeq := None, 0;
    }

    method CloseFile()
      modifies `opSeq
      ensures opSeq == if player.Some? then (old(opSeq) + 1) % TICKETS else old(opSeq)
    {
      if player.Some? {
        opSeq := (opSeq + 1) % TICKETS;
      }
    }

    method ClosePlayer()
      modifies this
      ensures player.None?
      ensures opSeq == if old(player).Some? then (old(opSeq) + 1) % TICKETS else old(opSeq)
    {
      if player.Some? {
        CloseFile();
        player := None;
      }
    }

    /** Keeps the player only when it can continue, and is the one that is wanted. */
    method ClosePlayerGapless(name: string)
      modifies this
      ensures player == if old(player).Some? && old(player).value.gapless && old(player).value.name == name
                        then old(player)
                        else None
      ensures opSeq == if old(player).Some? then (old(opSeq) + 1) % TICKETS else old(opSeq)
    {
      if player.None? {
        return;
      }
      if player.value.gapless && player.value.name == name {
        CloseFile();
      } else {
        ClosePlayer();
      }
    }

    /** Creating a player may fail. */
    method CreatePlayer(created: Option<Player>)
      modifies `player
      ensures player == if old(player).Some? then old(player) else created
    {
      if player.None? {
        player := created;
      }
    }

    method Perform(op: Operation)
      modifies this
      ensures opSeq == if !op.Create? && old(player).Some? then (old(opSeq) + 1) % TICKETS else old(opSeq)
      ensures player == match op
                        case Discard => None
                        case Create(p) => if old(player).Some? then old(player) else Some(p)
                        case _ => old(player)
    {
      match op {
        case Open =>
          if player.Some? {
            opSeq := (opSeq + 1) % TICKETS;
          }
        case Close =>
          CloseFile();
        case Discard =>
          ClosePlayer();
        case Create(p) =>
          CreatePlayer(Some(p));
      }
    }

    method PerformAll(ops: seq<Operation>)
      requires opSeq < TICKETS
      modifies this
      ensures opSeq == (old(opSeq) + Taken(ops, old(player)).0) % TICKETS
      ensures player == Taken(ops, old(player)).1
    {
      var k := 0;
      while k < |ops|
        invariant 0 <= k <= |ops|
        invariant opSeq == (old(opSeq) + Taken(ops[..k], old(player)).0) % TICKETS
        invariant player == Taken(ops[..k], old(player)).1
      {
        assert ops[..k + 1][..k] == ops[..k];
        OneMoreTicket(old(opSeq), Taken(ops[..k], old(player)).0);
        Perform(ops[k]);
        k := k + 1;
      }
      assert ops[..k] == ops;
    }

    /** Opens a file while other threads perform `meanwhile`. The result is
        "canceled" exactly when they took tickets, unless the counter came round. */
    method OpenFile(success: bool, meanwhile: seq<Operation>) returns (r: Result)
      requires opSeq < TICKETS
      modifies this
      ensures opSeq < TICKETS
      ensures old(player).None? ==> r == Fail
      ensures old(player).Some? ==>
                r == if Taken(meanwhile, old(player)).0 % TICKETS != 0 then Canceled else if success then Ok else Fail
      ensures old(player).Some? && |meanwhile| < TICKETS ==>
                (r == Canceled <==> Taken(meanwhile, old(player)).0 > 0)
    {
      if player.None? {
        PerformAll(meanwhile);
        return Fail;
      }
      opSeq := (opSeq + 1) % TICKETS;
      var startingSeq := opSeq;
      ghost var before := player;
      PerformAll(meanwhile);
      SameTicket(startingSeq, Taken(meanwhile, before).0);
      AtMostOneEach(meanwhile, before);
      r := if success then Ok else Fail;
      if opSeq != startingSeq {
        r := Canceled;
      }
    }
  }

  lemma OneMoreTicket(start: nat, n: nat)
    ensures ((start + n) % TICKETS + 1) % TICKETS == (start + n + 1) % TICKETS
  {
  }

  lemma SameTicket(start: nat, n: nat)
    requires start < TICKETS
    ensures (start + n) % TICKETS == start <==> n % TICKETS == 0
  {
  }

  lemma {:induction false} AtMostOneEach(ops: seq<Operation>, player: Option<Player>)
    ensures Taken(ops, player).0 <= |ops|
  {
    if ops != [] {
      AtMostOneEach(ops[..|ops| - 1], player);
    }
  }

  /** What happens around one call of `PlayFile`: callbacks of the old item while
      it is closed, callbacks of the new one while it is success, and afterwards. */
  datatype Play = Play(player: string, created: Option<Player>, success: bool, meanwhile: seq<Operation>,
                       closing: seq<Callback>, opening: seq<Callback>, atEnd: bool, later: seq<Callback>)

  class Application {
    const player: ApplicationPlayer
    var playState: PlayState
    var playbackStarting: bool
    var messages: seq<Kind>
    ghost var origins: seq<nat>   // which item each message is about
    ghost var current: nat        // the item being played

    ghost predicate Valid()
      reads this, player
    {
      |origins| == |messages| && player.opSeq < TICKETS
    }

    /** Every report in the queue is about the current item. */
    ghost predicate OnlyCurrent()
      reads this
    {
      |origins| == |messages| && forall k | 0 <= k < |messages| && Reports(messages[k]) :: origins[k] == current
    }

    constructor ()
      ensures Valid() && OnlyCurrent() && !playbackStarting && playState == Idle && messages == [] && current == 0
      ensures fresh(player)
    {
      player := new ApplicationPlayer();
      playState, playbackStarting, messages, origins, current := Idle, false, [], [], 0;
    }

    method Post(kind: Kind)
      modifies `messages, `origins
      ensures messages == old(messages) + [kind] && origins == old(origins) + [current]
    {
      messages := messages + [kind];
      origins := origins + [current];
    }

    /** A player callback. While an item is starting it is only recorded. */
    method Receive(callback: Callback)
      modifies `playState, `messages, `origins
      ensures playState == StateAfter(callback, old(playState))
      ensures match callback
              case OnStarted => playState == Playing
              case OnEnded => playState == Ended
              case OnStopped => playState == Stopped
              case OnQueueNext => playState == old(playState)
      ensures if playbackStarting then messages == old(messages) && origins == old(origins)
              else messages == old(messages) + [MessageOf(callback)] && origins == old(origins) + [current]
      ensures !playbackStarting ==>
                messages[|old(messages)|] == match callback
                                             case OnStarted => PlaybackStarted
                                             case OnEnded => PlaybackEnded
                                             case OnStopped => PlaybackStopped
                                             case OnQueueNext => QueueNextItem
    {
      match callback {
        case OnStarted =>
          playState := Playing;
        case OnEnded =>
          playState := Ended;
        case OnStopped =>
          playState := Stopped;
        case OnQueueNext =>
      }
      if playbackStarting {
        return;
      }
      Post(MessageOf(callback));
    }

    method ReceiveAll(callbacks: seq<Callback>)
      requires |origins| == |messages|
      modifies `playState, `messages, `origins
      ensures |origins| == |messages|
      ensures playState == Recorded(callbacks, old(playState))
      ensures playbackStarting ==> messages == old(messages) && origins == old(origins)
      ensures !playbackStarting ==> AllPosted(old(messages), messages, callbacks)
      ensures old(OnlyCurrent()) ==> OnlyCurrent()
    {
      var k := 0;
      while k < |callbacks|
        invariant 0 <= k <= |callbacks|
        invariant !playbackStarting ==> AllPosted(old(messages), messages, callbacks[..k])
        invariant |origins| == |messages|
        invariant playState == Recorded(callbacks[..k], old(playState))
        invariant playbackStarting ==> messages == old(messages) && origins == old(origins)
        invariant old(OnlyCurrent()) ==> OnlyCurrent()
      {
        assert callbacks[..k + 1][..k] == callbacks[..k];
        Receive(callbacks[k]);
        k := k + 1;
      }
      assert callbacks[..k] == callbacks;
    }

    /** Discards the messages about the previous item. */
    method RemoveIgnored()
      requires |origins| == |messages|
      modifies `messages, `origins
      ensures messages == Kept(old(messages)) && NoReports(messages) && |origins| == |messages|
    {
      var kept: seq<Kind> := [];
      ghost var from: seq<nat> := [];
      var k := 0;
      while k < |messages|
        invariant 0 <= k <= |messages| && messages == old(messages) && origins == old(origins)
        invariant kept == Kept(messages[..k]) && |from| == |kept|
      {
        assert messages[..k + 1][..k] == messages[..k];
        if !Ignored(messages[k]) {
          kept := kept + [messages[k]];
          from := from + [origins[k]];
        }
        k := k + 1;
      }
      assert messages[..k] == messages;
      messages := kept;
      origins := from;
    }

    /** The last section of `PlayFile`: the recorded state is made up for. */
    method Finish(result: Result, atEnd: bool)
      requires |origins| == |messages|
      modifies `playbackStarting, `playState, `messages, `origins
      ensures !playbackStarting && |origins| == |messages|
      ensures old(OnlyCurrent()) ==> OnlyCurrent()
      ensures messages == old(messages) + Made(result, old(playState), atEnd)
      ensures playState == if result.Fail? then Idle else old(playState)
    {
      playbackStarting := false;
      if result.Ok? {
        match playState {
          case Playing =>
            Receive(OnStarted);
          case Ended =>
            Receive(OnEnded);
          case Stopped =>
            Receive(OnStopped);
          case _ =>
        }
      } else if result.Fail? {
        if atEnd {
          Receive(OnStopped);
        }
        playState := Idle;
      }
    }

    /** Opens the new item, with the player that is left or a new one. */
    method Open(play: Play) returns (result: Result)
      requires player.opSeq < TICKETS
      modifies player
      ensures player.opSeq < TICKETS
      ensures result == ResultWith(play, if old(player.player).Some? then old(player.player) else play.created)
    {
      player.CreatePlayer(play.created);
      if player.player.Some? {
        result := player.OpenFile(play.success, play.meanwhile);
      } else {
        result := Fail;
      }
    }

    /** Starting begins: old reports are dropped and the previous item is closed; its callbacks
        are only recorded. */
    method BeginStarting(play: Play)
      requires Valid() && !playbackStarting
      modifies this, player
      ensures Valid() && playbackStarting
      ensures playState == Starting && current == old(current) + 1 && OnlyCurrent()
      ensures messages == Kept(old(messages))
      ensures player.player == match old(player.player)
                               case Some(p) => if p.gapless && p.name == play.player then Some(p) else None
                               case None => None
    {
      playbackStarting := true;
      RemoveIgnored();
      player.ClosePlayerGapless(play.player);
      ReceiveAll(play.closing);
      playState := Starting;
      current := current + 1;
    }

    /** One call of `PlayFile`. Old callbacks come before the state is reset. */
    method PlayFile(play: Play) returns (result: Result)
      requires Valid() && !playbackStarting
      modifies this, player
      ensures Valid() && !playbackStarting
      ensures current == old(current) + 1 && OnlyCurrent()
      // without a player, or when opening fails, the result is a failure; and the start was cancelled
      // exactly if others took tickets meanwhile, unless the counter came round
      ensures result == ResultOf(play, old(player.player))
      // nothing was posted meanwhile: only what the finish section makes up for is new
      ensures messages == Kept(old(messages)) + Made(result, Recorded(play.opening, Starting), play.atEnd)
      ensures playState == if result.Fail? then Idle else Recorded(play.opening, Starting)
    {
      BeginStarting(play);
      result := Open(play);
      ReceiveAll(play.opening);
      Finish(result, play.atEnd);
    }

    /** Any run of starts, with callbacks at every point. */
    method Run(plays: seq<Play>)
      requires Valid() && OnlyCurrent() && !playbackStarting
      modifies this, player
      ensures Valid() && OnlyCurrent() && !playbackStarting
      ensures current == old(current) + |plays|
    {
      var k := 0;
      while k < |plays|
        invariant 0 <= k <= |plays|
        invariant Valid() && OnlyCurrent() && !playbackStarting
        invariant current == old(current) + k
      {
        var result := PlayFile(plays[k]);
        ReceiveAll(plays[k].later);
        k := k + 1;
      }
    }
  }

  /** The player that is to open the file: the old one, if it goes on without a gap and is the
      one that is wanted, or else a new one, if one could be made. */
  ghost function Opener(play: Play, before: Option<Player>): Option<Player> {
    match before
    case Some(p) => if p.gapless && p.name == play.player then before else play.created
    case None => play.created
  }

  ghost function ResultOf(play: Play, before: Option<Player>): Result {
    ResultWith(play, Opener(play, before))
  }

  ghost function ResultWith(play: Play, opener: Option<Player>): Result {
    if opener.None? then Fail
    else if Taken(play.meanwhile, opener).0 % TICKETS != 0 then Canceled
    else if play.success then Ok
    else Fail
  }

  /** Callback `k` is the last one of a run that says what the player did. */
  ghost predicate IsLastReport(callbacks: seq<Callback>, k: nat) {
    && k < |callbacks| && !callbacks[k].OnQueueNext?
    && forall j | k < j < |callbacks| :: callbacks[j].OnQueueNext?
  }

  ghost predicate OnlyQueueRequests(callbacks: seq<Callback>) {
    forall j | 0 <= j < |callbacks| :: callbacks[j].OnQueueNext?
  }

  /** What is posted after a start: the message for the last report, or that nothing more is played. */
  ghost predicate IsMadeUp(play: Play, result: Result, made: seq<Kind>) {
    match result
    case Ok =>
      && (OnlyQueueRequests(play.opening) ==> made == [])
      && forall k | 0 <= k < |play.opening| && IsLastReport(play.opening, k) ::
           made == (match play.opening[k]
                    case OnStarted => [PlaybackStarted]
                    case OnEnded => [PlaybackEnded]
                    case _ => [PlaybackStopped])
    case Fail => made == if play.atEnd then [PlaybackStopped] else []
    case Canceled => made == []
  }

  /** The last report from the new item is made up for, or the failure to start it. */
  lemma MadeUp(play: Play, result: Result)
    ensures IsMadeUp(play, result, Made(result, Recorded(play.opening, Starting), play.atEnd))
  {
    LastIsRecorded(play.opening, Starting);
  }

  lemma {:induction false} LastIsRecorded(callbacks: seq<Callback>, state: PlayState)
    ensures OnlyQueueRequests(callbacks) ==> Recorded(callbacks, state) == state
    ensures forall k | 0 <= k < |callbacks| && IsLastReport(callbacks, k) ::
              Recorded(callbacks, state) == match callbacks[k]
                                            case OnStarted => Playing
                                            case OnEnded => Ended
                                            case _ => Stopped
  {
    if callbacks != [] {
      var n := |callbacks| - 1;
      var front := callbacks[..n];
      LastIsRecorded(front, state);
      if callbacks[n].OnQueueNext? {
        assert Recorded(callbacks, state) == Recorded(front, state);
        assert OnlyQueueRequests(callbacks) ==> OnlyQueueRequests(front);
        forall k | 0 <= k < |callbacks| && IsLastReport(callbacks, k) ensures k < n && IsLastReport(front, k) {
          assert forall j | k < j < n :: front[j] == callbacks[j];
        }
      } else {
        forall k | 0 <= k < |callbacks| && IsLastReport(callbacks, k) ensures k == n {
        }
      }
    }
  }

  /** The messages that the finish section posts. */
  function Made(result: Result, recorded: PlayState, atEnd: bool): seq<Kind> {
    match result
    case Ok =>
      (match recorded
       case Playing => [PlaybackStarted]
       case Ended => [PlaybackEnded]
       case Stopped => [PlaybackStopped]
       case _ => [])
    case Fail => if atEnd then [PlaybackStopped] else []
    case Canceled => []
  }

  /** After a successful start the last callback recorded for the new item yields
      exactly one message; without one there is none. */
  lemma OneMessageForTheLastCallback(opening: seq<Callback>, atEnd: bool)
    ensures Made(Ok, Recorded(opening, Starting), atEnd) ==
            match LastRecorded(opening)
            case None => []
            case Some(c) => [MessageOf(c)]
  {
    RecordedIsLast(opening, Starting);
  }
}
