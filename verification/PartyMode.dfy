/** The party mode queue: `CPartyModeManager`. */
module PartyMode {
  import opened Basics

  const QUEUE_DEPTH := 10

  /** An item of the queue, and whether a user asked for it. */
  datatype Song = Song(id: nat, byUser: bool)

  /** What party mode plays; `Other` is any kind that it does not know how to refill. */
  datatype Kind = Songs | MusicVideos | Mixed | Other

  /** Inserting at a position out of bounds adds at the end. */
  function Inserted(queue: seq<Song>, songs: seq<Song>, at: int): seq<Song> {
    if at < 0 || at >= |queue| then queue + songs else queue[..at] + songs + queue[at..]
  }

  method Insert(queue: seq<Song>, songs: seq<Song>, at: int) returns (r: seq<Song>)
    ensures r == Inserted(queue, songs, at)
  {
    if at < 0 || at >= |queue| {
      return queue + songs;
    }
    r := queue;
    var i := 0;
    while i < |songs|
      invariant 0 <= i <= |songs|
      invariant r == queue[..at] + songs[..i] + queue[at..]
    {
      r := r[..at + i] + [songs[i]] + r[at + i..];
      i := i + 1;
    }
    assert songs[..i] == songs;
  }

  /** The user's songs are exactly those at positions 1 to `last`; random songs come behind. */
  ghost predicate UserSongsInFront(queue: seq<Song>, last: int) {
    && -1 <= last < |queue|
    && forall j | 1 <= j < |queue| :: queue[j].byUser <==> j <= last
  }

  /** Playing on from song `current` keeps the user's songs in front. */
  lemma ReapingShifts(queue: seq<Song>, last: int, current: nat)
    requires UserSongsInFront(queue, last) && current < |queue|
    ensures UserSongsInFront(queue[current..], Max(last - current, -1))
  {
    var rest := queue[current..];
    forall j | 1 <= j < |rest| ensures rest[j].byUser <==> j <= Max(last - current, -1) {
      assert rest[j] == queue[current + j];
    }
  }

  /** New user songs under the current one, or under the last user song, stay in front. */
  lemma InsertingExtends(queue: seq<Song>, last: int, songs: seq<Song>, at: int)
    requires UserSongsInFront(queue, last) && queue != [] && forall s | s in songs :: s.byUser
    requires at == 1 || (last >= 0 && at == last + 1)
    ensures UserSongsInFront(Inserted(queue, songs, at), Max(last, 0) + |songs|)
  {
    var next := Inserted(queue, songs, at);
    var where := if at >= |queue| then |queue| else at;
    forall j | 1 <= j < |next| ensures next[j].byUser <==> j <= Max(last, 0) + |songs| {
      if j < where {
        assert next[j] == queue[j];
      } else if j < where + |songs| {
        assert next[j] == songs[j - where] && songs[j - where] in songs;
      } else {
        assert next[j] == queue[j - |songs|];
      }
    }
  }

  /** The songs that users asked for, in the order in which they are played. */
  ghost function Requests(songs: seq<Song>): seq<Song> {
    if songs == [] then []
    else
      var last := |songs| - 1;
      Requests(songs[..last]) + if songs[last].byUser then [songs[last]] else []
  }

  lemma {:induction false} RequestsOfBoth(a: seq<Song>, b: seq<Song>)
    ensures Requests(a + b) == Requests(a) + Requests(b)
  {
    if b == [] {
      assert a + b == a;
    } else {
      var last := |b| - 1;
      RequestsOfBoth(a, b[..last]);
      assert (a + b)[..|a| + last] == a + b[..last];
    }
  }

  lemma {:induction false} AllRequests(songs: seq<Song>)
    requires forall s | s in songs :: s.byUser
    ensures Requests(songs) == songs
  {
    if songs != [] {
      var last := |songs| - 1;
      AllRequests(songs[..last]);
      assert songs == songs[..last] + [songs[last]];
    }
  }

  lemma {:induction false} NoRequests(songs: seq<Song>)
    requires forall s | s in songs :: !s.byUser
    ensures Requests(songs) == []
  {
    if songs != [] {
      NoRequests(songs[..|songs| - 1]);
    }
  }

  /** When the first `n` songs are the user's, they are the requests. */
  lemma {:induction false} LeadingRequests(songs: seq<Song>, n: nat)
    requires n <= |songs| && forall j | 0 <= j < |songs| :: songs[j].byUser <==> j < n
    ensures Requests(songs) == songs[..n]
  {
    if n == |songs| {
      AllRequests(songs);
    } else {
      var front := songs[..|songs| - 1];
      LeadingRequests(front, n);
      assert front[..n] == songs[..n];
    }
  }

  /** The requests behind the song on top. */
  lemma RequestsBehind(queue: seq<Song>, last: int)
    requires UserSongsInFront(queue, last) && queue != []
    ensures Requests(queue[1..]) == queue[1..][..Max(last, 0)]
  {
    var rest, n := queue[1..], Max(last, 0);
    forall j | 0 <= j < |rest| ensures rest[j].byUser <==> j < n {
      assert rest[j] == queue[1 + j];
    }
    LeadingRequests(rest, n);
  }

  /** Songs queued below the last user song wait for every earlier request. */
  lemma QueuedComeLast(queue: seq<Song>, last: int, songs: seq<Song>, at: int)
    requires UserSongsInFront(queue, last) && queue != [] && forall s | s in songs :: s.byUser
    requires at == if last < 0 then 1 else last + 1
    ensures Requests(Inserted(queue, songs, at)[1..]) == Requests(queue[1..]) + songs
    ensures Inserted(queue, songs, at)[..1] == queue[..1]
  {
    var rest := queue[1..];
    var front, back := rest[..at - 1], rest[at - 1..];
    calc {
      Requests(Inserted(queue, songs, at)[1..]);
    ==  { InsertedBehind(queue, songs, at); }
      Requests(front + songs + back);
    ==  { RequestsBetween(front, songs, back); }
      Requests(front) + songs + Requests(back);
    ==  { NoneBehind(queue, last); }
      Requests(rest) + songs;
    }
    InsertedBehind(queue, songs, at);
  }

  lemma RequestsBetween(front: seq<Song>, songs: seq<Song>, back: seq<Song>)
    requires forall s | s in songs :: s.byUser
    ensures Requests(front + songs + back) == Requests(front) + songs + Requests(back)
  {
    AllRequests(songs);
    RequestsOfBoth(front, songs);
    RequestsOfBoth(front + songs, back);
  }

  /** Below the last user song there are no requests. */
  lemma NoneBehind(queue: seq<Song>, last: int)
    requires UserSongsInFront(queue, last) && queue != []
    ensures var rest, k := queue[1..], Max(last, 0); Requests(rest[k..]) == [] && Requests(rest[..k]) == Requests(rest)
  {
    var rest, k := queue[1..], Max(last, 0);
    forall s | s in rest[k..] ensures !s.byUser {
      var j :| 0 <= j < |rest| - k && rest[k..][j] == s;
      assert s == queue[1 + k + j];
    }
    NoRequests(rest[k..]);
    RequestsOfBoth(rest[..k], rest[k..]);
    assert rest == rest[..k] + rest[k..];
  }

  lemma InsertedBehind(queue: seq<Song>, songs: seq<Song>, at: int)
    requires 1 <= at <= |queue|
    ensures var rest := queue[1..]; Inserted(queue, songs, at)[1..] == rest[..at - 1] + songs + rest[at - 1..]
    ensures Inserted(queue, songs, at)[..1] == queue[..1]
  {
  }

  lemma InsertedBetween(queue: seq<Song>, songs: seq<Song>, at: int)
    requires 0 <= at <= |queue|
    ensures Inserted(queue, songs, at) == queue[..at] + songs + queue[at..]
  {
  }

  /** Songs played at once go before every request still waiting. */
  lemma PlayedNowComeFirst(queue: seq<Song>, songs: seq<Song>)
    requires queue != [] && forall s | s in songs :: s.byUser
    ensures Requests(Inserted(queue, songs, 1)[1..]) == songs + Requests(queue[1..])
    ensures Inserted(queue, songs, 1)[..1] == queue[..1]
  {
    InsertedBetween(queue, songs, 1);
    assert Inserted(queue, songs, 1)[1..] == songs + queue[1..];
    RequestsOfBoth(songs, queue[1..]);
    AllRequests(songs);
  }

  /** The requests of a party: those that are done, and those in line behind the song on
      top of the queue, in the order in which they are played. `position` is how far the
      player has moved since the queue was last brought up to date. */
  datatype Party = Party(done: seq<Song>, line: seq<Song>, position: nat)
  {
    function All(): seq<Song> {
      done + line
    }

    /** How many requests in line the player has passed. */
    function Passed(): nat {
      Min(position, |line|)
    }

    /** The requests that the player has still to come to. */
    function Waiting(): seq<Song> {
      line[Passed()..]
    }

    /** The queue is brought up to date: what was passed, or plays, is done. */
    function Processed(): Party {
      Party(done + line[..Passed()], line[Passed()..], 0)
    }
  }

  /** The requests of a queue behind songs already played. */
  ghost function PartyOf(played: seq<Song>, queue: seq<Song>, position: nat): Party
    requires queue != []
  {
    Party(Requests(played + queue[..1]), Requests(queue[1..]), position)
  }

  /** Songs that leave the front of the queue serve the requests among them. */
  lemma LeavingServes(played: seq<Song>, queue: seq<Song>, last: int, n: nat)
    requires UserSongsInFront(queue, last) && n < |queue|
    ensures PartyOf(played + queue[..n], queue[n..], 0) == PartyOf(played, queue, n).Processed()
  {
    var first, rest := queue[..1], queue[1..];
    RequestsBehind(queue, last);
    LeavingCuts(queue, last, n);
    RequestsOfBoth(played + first, rest[..n]);
    assert played + queue[..n] + queue[n..][..1] == played + first + rest[..n];
    assert queue[n..][1..] == rest[n..];
  }

  /** The requests among the next `n` songs, and behind them. */
  lemma LeavingCuts(queue: seq<Song>, last: int, n: nat)
    requires UserSongsInFront(queue, last) && n < |queue|
    ensures var rest := queue[1..];
            var line := rest[..Max(last, 0)];
            var k := Min(n, |line|);
            Requests(rest[..n]) == line[..k] && Requests(rest[n..]) == line[k..]
  {
    var rest := queue[1..];
    var line := rest[..Max(last, 0)];
    var k := Min(n, |line|);
    var leaving, staying := rest[..n], rest[n..];
    forall j | 0 <= j < n ensures leaving[j].byUser <==> j < k {
      assert leaving[j] == queue[1 + j];
    }
    LeadingRequests(leaving, k);
    assert leaving[..k] == line[..k];
    forall j | 0 <= j < |staying| ensures staying[j].byUser <==> j < |line| - k {
      assert staying[j] == queue[1 + n + j];
    }
    LeadingRequests(staying, |line| - k);
    assert staying[..|line| - k] == line[k..];
  }

  /** Random songs at the end are no requests. */
  lemma RandomIsNoRequest(played: seq<Song>, queue: seq<Song>, position: nat, song: Song)
    requires queue != [] && !song.byUser
    ensures PartyOf(played, queue + [song], position) == PartyOf(played, queue, position)
  {
    assert (queue + [song])[1..] == queue[1..] + [song];
    RequestsOfBoth(queue[1..], [song]);
    NoRequests([song]);
  }

  class Manager {
    const kind: Kind
    var enabled: bool
    var queue: seq<Song>
    var other: seq<Song>   // the queue of the other kind of media
    var current: nat       // the song that plays
    var lastUserSong: int
    var history: seq<nat>
    var songsInHistory: nat
    var nextSong: nat      // the database hands out songs
    ghost var played: seq<Song> // the songs that left the queue

    /** Party mode over the songs first chosen; `other` is the queue of the other kind. */
    constructor (kind: Kind, first: seq<Song>, other: seq<Song>, chosen: seq<nat>, songsInHistory: nat)
      requires first != [] && forall s | s in first :: !s.byUser
      ensures Valid() && enabled && this.kind == kind && queue == first && lastUserSong == -1
      ensures this.other == other && this.songsInHistory == songsInHistory && history == chosen
      ensures Requested() == Party([], [], 0)
    {
      this.kind, enabled, queue, current, lastUserSong := kind, true, first, 0, -1;
      this.other, history, this.songsInHistory, nextSong, played := other, chosen, songsInHistory, 0, [];
      NoRequests([] + first[..1]);
      NoRequests(first[1..]);
      assert forall j | 1 <= j < |first| :: first[j] in first;
    }

    /** The user's songs are in front, behind the song on top; the player is somewhere in the
        queue, on top unless it has moved since the queue was brought up to date. */
    ghost predicate Valid()
      reads this
    {
      current < |queue| && UserSongsInFront(queue, lastUserSong)
    }

    ghost function Requested(): Party
      reads this
      requires queue != []
    {
      PartyOf(played, queue, current)
    }

    /** The queue is as deep as a refill makes a queue of `size` songs. */
    ghost predicate Refilled(size: nat)
      reads this
    {
      enabled && kind != Other ==> |queue| == Max(size, QUEUE_DEPTH)
    }

    method AddUserSongs(songs: seq<Song>, play: bool)
      requires Valid() && forall s | s in songs :: s.byUser
      modifies this
      ensures Valid() && other == old(other) && (enabled ==> old(enabled))
      ensures current == if old(enabled) && play then 0 else old(current)
      ensures old(enabled) && !play ==>
                queue == Inserted(old(queue), songs, if old(lastUserSong) < 0 then 1 else old(lastUserSong) + 1)
                && lastUserSong == Max(old(lastUserSong), 0) + |songs| && enabled
      ensures var place := Min(1, |old(queue)| + |songs| - 1);
              old(enabled) && play ==>
                Inserted(old(queue), songs, 1)[place..] <= queue
                && lastUserSong == Max(Max(old(lastUserSong), 0) + |songs| - place, -1)
                && Refilled(|old(queue)| + |songs| - place)
      ensures !old(enabled) ==> queue == old(queue) && lastUserSong == old(lastUserSong)
      // queued songs go behind all requests in line, songs played at once before them
      ensures var event := if play then PlayNow(songs) else Queue(songs);
              Requested() == if old(enabled) then After(old(Requested()), event) else old(Requested())
    {
      if !enabled {
        return;
      }
      ghost var was := Requested();
      Enqueue(songs, play);
      ghost var inserted := queue;
      if play {
        Play(1);
        assert inserted[Min(1, |inserted| - 1)..] <= queue;
        assert Requested() == After(was, PlayNow(songs));
      } else {
        assert Requested() == After(was, Queue(songs));
      }
    }

    /** Puts the songs under the current one, or under the last user song. */
    method Enqueue(songs: seq<Song>, play: bool)
      requires Valid() && forall s | s in songs :: s.byUser
      modifies `queue, `lastUserSong
      ensures queue == Inserted(old(queue), songs, if old(lastUserSong) < 0 || play then 1 else old(lastUserSong) + 1)
      ensures lastUserSong == Max(old(lastUserSong), 0) + |songs|
      ensures Valid() && |queue| == |old(queue)| + |songs|
      ensures var line := old(Requested()).line;
              Requested() == old(Requested()).(line := if play then songs + line else line + songs)
    {
      var at := if lastUserSong < 0 || play then 1 else lastUserSong + 1;
      InsertingExtends(queue, lastUserSong, songs, at);
      if play {
        PlayedNowComeFirst(queue, songs);
      } else {
        QueuedComeLast(queue, lastUserSong, songs, at);
      }
      queue := Insert(queue, songs, at);
      if lastUserSong < 0 {
        lastUserSong := 0;
      }
      lastUserSong := lastUserSong + |songs|;
    }

    /** The player goes to a song of the queue; one beyond it is taken for its last. */
    method MovePlayer(song: nat)
      requires Valid()
      modifies `current
      ensures Valid() && current == Min(song, |queue| - 1)
      ensures Requested() == old(Requested()).(position := current)
    {
      current := if song >= |queue| then |queue| - 1 else song;
    }

    /** Playback of the song that the player went to has started. */
    method OnSongChange()
      requires Valid()
      modifies this
      ensures Valid() && other == old(other) && (enabled ==> old(enabled))
      ensures old(enabled) ==> current == 0 && old(queue)[old(current)..] <= queue
      ensures old(enabled) ==> lastUserSong == Max(old(lastUserSong) - old(current), -1)
      ensures Refilled(|old(queue)| - old(current))
      ensures Requested() == if old(enabled) then old(Requested()).Processed() else old(Requested())
    {
      if !enabled {
        return;
      }
      Process();
    }

    /** Plays a song at once. */
    method Play(song: nat)
      requires Valid()
      modifies this
      ensures Valid() && current == 0 && other == old(other) && (enabled ==> old(enabled))
      ensures var place := Min(song, |old(queue)| - 1);
              && old(queue)[place..] <= queue && lastUserSong == Max(old(lastUserSong) - place, -1)
              && Refilled(|old(queue)| - place)
      ensures Requested() == old(Requested()).(position := song).Processed()
    {
      RequestsBehind(queue, lastUserSong);
      MovePlayer(song);
      Process();
    }

    method Process()
      requires Valid()
      modifies this
      ensures Valid() && current == 0 && other == old(other) && (enabled ==> old(enabled))
      ensures old(queue)[old(current)..] <= queue
      ensures lastUserSong == Max(old(lastUserSong) - old(current), -1)
      ensures Refilled(|old(queue)| - old(current))
      ensures Requested() == old(Requested()).Processed()
    {
      ghost var was, rest := Requested(), queue[current..];
      ReapSongs();
      assert enabled == old(enabled) && Requested() == was.Processed();
      MovePlaying();
      assert queue == rest && enabled == old(enabled) && Requested() == was.Processed();
      var ok := AddRandomSongs();
      assert rest <= queue;
    }

    method ReapSongs()
      requires Valid()
      modifies `queue, `current, `lastUserSong, `played
      ensures Valid() && current == 0 && queue == old(queue)[old(current)..]
          && lastUserSong == Max(old(lastUserSong) - old(current), -1)
      ensures played == old(played) + old(queue)[..old(current)]
      ensures Requested() == old(Requested()).Processed()
    {
      ghost var before, song := queue, current;
      LeavingServes(played, before, lastUserSong, song);
      RemovePlayed();
      played := played + before[..song];
    }

    /** Removes the songs before the current one. */
    method RemovePlayed()
      requires Valid()
      modifies `queue, `current, `lastUserSong
      ensures Valid() && current == 0 && queue == old(queue)[old(current)..]
          && lastUserSong == Max(old(lastUserSong) - old(current), -1)
    {
      var iCurrentSong := current;
      var i := 0;
      while i < |queue|
        invariant 0 <= i <= |queue| && 0 <= iCurrentSong <= old(current)
        invariant i > 0 ==> iCurrentSong == 0
        invariant queue == old(queue)[old(current) - iCurrentSong..]
        invariant lastUserSong == Max(old(lastUserSong) - (old(current) - iCurrentSong), -1)
        decreases |queue| - i
      {
        if i < iCurrentSong {
          queue := queue[..i] + queue[i + 1..];
          iCurrentSong := iCurrentSong - 1;
          if i <= lastUserSong {
            lastUserSong := lastUserSong - 1;
          }
        } else {
          i := i + 1;
        }
      }
      ReapingShifts(old(queue), old(lastUserSong), old(current));
      current := iCurrentSong;
    }

    /** Moves the current song to the top, but in the queue of the other kind.
        (Between reaping and this call the current song is on top already.) */
    method MovePlaying()
      requires current > 0 ==> current < |other|
      modifies `current, `other
      ensures current == 0
      ensures other == if old(current) == 0 then old(other)
                       else [old(other)[old(current)]] + old(other)[..old(current)] + old(other)[old(current) + 1..]
    {
      if current > 0 {
        var moved := [other[current]];
        other := other[..current] + other[current + 1..];
        var i := 0;
        while i < |other|
          invariant 0 <= i <= |other| && moved == [old(other)[current]] + other[..i]
        {
          moved := moved + [other[i]];
          i := i + 1;
        }
        other := moved;
      }
      current := 0;
    }

    /** Adds one random song, if the database has one. */
    method AddRandomSong() returns (ok: bool)
      requires Valid()
      modifies `queue, `history, `nextSong, `enabled
      ensures Valid() && old(queue) <= queue && Requested() == old(Requested())
      ensures if ok then |queue| == |old(queue)| + 1 && enabled == old(enabled) else queue == old(queue) && !enabled
    {
      ok := *;
      if ok {
        RandomIsNoRequest(played, queue, current, Song(nextSong, false));
        queue := queue + [Song(nextSong, false)];
        AddToHistory(nextSong);
        nextSong := nextSong + 1;
      } else {
        enabled := false;
      }
    }

    /** How many songs and how many videos a refill adds. */
    method Split(missing: int) returns (songs: int, videos: int)
      ensures kind != Mixed ==> songs == videos == missing
      ensures kind == Mixed ==> Max(songs, 0) + Max(videos, 0) == Max(missing, 0)
      // the cast binds to the factor, so from two missing songs on no videos are added at all
      ensures kind == Mixed && missing > 1 ==> songs == missing && videos == 0
    {
      songs, videos := missing, missing;
      if kind == Mixed {
        if missing == 1 {
          var video: bool := *;
          if video {
            songs := 0;
          } else {
            videos := 0;
          }
        }
        if missing > 1 {
          songs, videos := 0 * missing, 0 * missing;
          while songs + videos < missing
            invariant videos == 0 && 0 <= songs <= missing
          {
            songs := songs + 1;
          }
        }
      }
    }

    method AddSongs(count: int) returns (ok: bool)
      requires Valid()
      modifies `queue, `history, `nextSong, `enabled
      ensures Valid() && old(queue) <= queue && Requested() == old(Requested())
      ensures if ok then |queue| == |old(queue)| + Max(count, 0) && enabled == old(enabled) else !enabled
    {
      var i := 0;
      while i < count
        invariant 0 <= i <= Max(count, 0)
        invariant Valid() && old(queue) <= queue && |queue| == |old(queue)| + i && enabled == old(enabled)
        invariant Requested() == old(Requested())
      {
        var added := AddRandomSong();
        if !added {
          return false;
        }
        i := i + 1;
      }
      ok := true;
    }

    /** A refill that succeeds brings the queue to its depth, unless the kind is unknown. */
    method AddRandomSongs() returns (ok: bool)
      requires Valid()
      modifies `queue, `history, `nextSong, `enabled
      ensures Valid() && old(queue) <= queue && Requested() == old(Requested())
      ensures ok ==> enabled == old(enabled)
                     && |queue| == if kind == Other then |old(queue)| else Max(|old(queue)|, QUEUE_DEPTH)
      ensures !ok ==> !enabled
    {
      var missing := QUEUE_DEPTH - |queue|;
      var songs, videos := Split(missing);
      if kind == Songs || kind == Mixed {
        ok := AddSongs(songs);
        if !ok {
          return;
        }
      }
      if kind == MusicVideos || kind == Mixed {
        ok := AddSongs(videos);
        if !ok {
          return;
        }
      }
      ok := true;
    }

    /** The history keeps the latest songs, as many as it may hold; with no limit it keeps all. */
    method AddToHistory(song: nat)
      modifies `history
      ensures history != [] && history[|history| - 1] == song
      ensures songsInHistory > 0 ==> |history| == Min(|old(history)|, songsInHistory - 1) + 1
      ensures songsInHistory == 0 ==> history == old(history) + [song]
      ensures exists k :: 0 <= k <= |old(history)| && history == old(history)[k..] + [song]
    {
      ghost var k := 0;
      while |history| >= songsInHistory && songsInHistory > 0
        invariant 0 <= k <= |old(history)| && history == old(history)[k..]
        invariant k > 0 ==> songsInHistory > 0 && |history| >= songsInHistory - 1
        decreases |history|
      {
        history := history[1..];
        k := k + 1;
      }
      history := history + [song];
    }
  }

  /** What happens to the queue from outside: additions, the player's moves, and the
      playback that follows them. */
  datatype Event = Queue(songs: seq<Song>) | PlayNow(songs: seq<Song>) | Move(song: nat) | Started

  /** What an event does to the requests: queued songs go behind the others in line, songs
      played at once before them, and the first of them plays. (Requests that the player has
      passed, but that are in line still, come behind those as well, and once more.) */
  function After(party: Party, event: Event): Party {
    match event {
      case Queue(songs) => party.(line := party.line + songs)
      case PlayNow(songs) => party.(line := songs + party.line, position := 1).Processed()
      case Move(song) => party.(position := song)
      case Started => party.Processed()
    }
  }

  function AfterAll(party: Party, events: seq<Event>): Party {
    if events == [] then party else After(AfterAll(party, events[..|events| - 1]), events[|events| - 1])
  }

  // ---- Additions between a move of the player and the start of playback ----

  /** The player has passed all requests, and goes on through random songs. */
  predicate Ahead(party: Party) {
    party.position > |party.line|
  }

  /** Queued songs wait to be played exactly if the player is not ahead of all requests; if it
      is, songs come in before its position, and so many of them are never played. */
  lemma QueuedAreWaiting(party: Party, songs: seq<Song>)
    ensures var next := After(party, Queue(songs));
            && (next.Waiting() == party.Waiting() + songs <==> !Ahead(party) || songs == [])
            && (Ahead(party) ==> next.Waiting() == songs[Min(|songs|, party.position - |party.line|)..])
  {
    var next := After(party, Queue(songs));
    if Ahead(party) {
      assert party.Waiting() == [] && |next.Waiting()| <= |songs|;
      assert songs != [] ==> |next.Waiting()| < |songs|;
      assert next.Waiting() == songs[Min(|songs|, party.position - |party.line|)..];
      assert songs == [] ==> next.Waiting() == party.Waiting() + songs;
    } else {
      assert next.Waiting() == party.Waiting() + songs;
    }
  }

  /** Playing at once, and queueing once playback has started, find the player on top. */
  lemma NotAheadOnceStarted(party: Party, event: Event)
    ensures event.PlayNow? || event.Started? ==> !Ahead(After(party, event))
    ensures event.Queue? && !Ahead(party) ==> !Ahead(After(party, event))
  {
  }

  /** In the queue itself: the playing song keeps its position exactly if songs come in behind it. */
  lemma PlayingKeepsItsPlace(queue: seq<Song>, last: int, songs: seq<Song>, current: nat)
    requires UserSongsInFront(queue, last) && current < |queue| && forall s | s in songs :: s.byUser
    ensures var at := Max(last, 0) + 1;
            && (Ahead(PartyOf([], queue, current)) <==> at <= current)
            && Inserted(queue, songs, at)[if current < at then current else current + |songs|] == queue[current]
  {
    RequestsBehind(queue, last);
    InsertedBetween(queue, songs, Min(Max(last, 0) + 1, |queue|));
  }

  /** The player has gone on from one random song to the next when a user queues a song. That
      comes in at the position of the playing song, and takes its place on top of the queue. */
  method LateAddition(first: seq<Song>, u: Song) returns (m: Manager)
    requires |first| == 2 && u.byUser && forall s | s in first :: !s.byUser
    ensures |m.queue| >= 2 && m.queue[0] == u && m.queue[1] == first[1]
    ensures m.Requested() == Party([u], [], 0)
  {
    m := new Manager(Songs, first, [], [], 0);
    m.MovePlayer(1);
    m.AddUserSongs([u], false);
    assert m.queue == [first[0], u, first[1]];
    m.OnSongChange();
  }

  // ---- Whole runs ----

  ghost predicate FromUsers(events: seq<Event>) {
    forall k | 0 <= k < |events| :: forall s | s in WishOf(events[k]) :: s.byUser
  }

  function WishOf(event: Event): seq<Song> {
    if event.Queue? || event.PlayNow? then event.songs else []
  }

  /** Everything that users ask for in a run. */
  function Wishes(events: seq<Event>): seq<Song> {
    if events == [] then [] else Wishes(events[..|events| - 1]) + WishOf(events[|events| - 1])
  }

  /** The songs to be played at once. */
  function AtOnce(events: seq<Event>): set<Song> {
    if events == [] then {}
    else
      var event := events[|events| - 1];
      AtOnce(events[..|events| - 1]) + if event.PlayNow? then set s | s in event.songs else {}
  }

  /** The songs outside a set, in their order. */
  function Except(songs: seq<Song>, out: set<Song>): seq<Song> {
    if songs == [] then []
    else
      var last := |songs| - 1;
      Except(songs[..last], out) + if songs[last] in out then [] else [songs[last]]
  }

  lemma {:induction false} ExceptOfBoth(a: seq<Song>, b: seq<Song>, out: set<Song>)
    ensures Except(a + b, out) == Except(a, out) + Except(b, out)
  {
    if b == [] {
      assert a + b == a;
    } else {
      var last := |b| - 1;
      ExceptOfBoth(a, b[..last], out);
      assert (a + b)[..|a| + last] == a + b[..last];
    }
  }

  lemma {:induction false} NoneLeft(songs: seq<Song>, out: set<Song>)
    requires forall s | s in songs :: s in out
    ensures Except(songs, out) == []
  {
    if songs != [] {
      NoneLeft(songs[..|songs| - 1], out);
    }
  }

  /** Over any run every request is done or in line, exactly once. */
  lemma {:induction false} EveryRequestOnce(party: Party, events: seq<Event>)
    ensures multiset(AfterAll(party, events).All()) == multiset(party.All()) + multiset(Wishes(events))
  {
    if events != [] {
      var front, event := events[..|events| - 1], events[|events| - 1];
      EveryRequestOnce(party, front);
      OneEventOnce(AfterAll(party, front), event);
    }
  }

  lemma ProcessingKeepsAll(party: Party)
    ensures party.Processed().All() == party.All()
  {
  }

  lemma OneEventOnce(party: Party, event: Event)
    ensures multiset(After(party, event).All()) == multiset(party.All()) + multiset(WishOf(event))
  {
    match event {
      case Queue(songs) =>
        assert After(party, event).All() == party.All() + songs;
      case PlayNow(songs) =>
        ProcessingKeepsAll(party.(line := songs + party.line, position := 1));
        assert After(party, event).All() == party.done + (songs + party.line);
      case Move(song) =>
      case Started =>
        ProcessingKeepsAll(party);
    }
  }

  /** Requests that nobody plays at once are played in the order of asking, whatever
      else is played at once. */
  lemma {:induction false} QueuedInOrder(party: Party, events: seq<Event>, out: set<Song>)
    requires AtOnce(events) <= out
    ensures Except(AfterAll(party, events).All(), out) == Except(party.All() + Wishes(events), out)
  {
    if events == [] {
      assert party.All() + [] == party.All();
    } else {
      var front, event := events[..|events| - 1], events[|events| - 1];
      LastAtOnce(events, out);
      calc {
        Except(AfterAll(party, events).All(), out);
      ==  { OneEventInOrder(AfterAll(party, front), event, out); }
        Except(AfterAll(party, front).All(), out) + Except(WishOf(event), out);
      ==  { QueuedInOrder(party, front, out); }
        Except(party.All() + Wishes(front), out) + Except(WishOf(event), out);
      ==  { ExceptOfBoth(party.All() + Wishes(front), WishOf(event), out); }
        Except(party.All() + Wishes(front) + WishOf(event), out);
      ==  { assert party.All() + Wishes(front) + WishOf(event) == party.All() + Wishes(events); }
        Except(party.All() + Wishes(events), out);
      }
    }
  }

  lemma LastAtOnce(events: seq<Event>, out: set<Song>)
    requires events != [] && AtOnce(events) <= out
    ensures AtOnce(events[..|events| - 1]) <= out
    ensures var event := events[|events| - 1]; event.PlayNow? ==> forall s | s in event.songs :: s in out
  {
    var event := events[|events| - 1];
    if event.PlayNow? {
      forall s | s in event.songs ensures s in out {
        assert s in AtOnce(events);
      }
    }
  }

  lemma OneEventInOrder(party: Party, event: Event, out: set<Song>)
    requires event.PlayNow? ==> forall s | s in event.songs :: s in out
    ensures Except(After(party, event).All(), out) == Except(party.All(), out) + Except(WishOf(event), out)
  {
    match event {
      case Queue(songs) =>
        assert After(party, event).All() == party.All() + songs;
        ExceptOfBoth(party.All(), songs, out);
      case PlayNow(songs) =>
        ProcessingKeepsAll(party.(line := songs + party.line, position := 1));
        NoneLeft(songs, out);
        TakenOutBetween(party.done, songs, party.line, out);
      case Move(song) =>
      case Started =>
        ProcessingKeepsAll(party);
    }
  }

  lemma TakenOutBetween(a: seq<Song>, b: seq<Song>, c: seq<Song>, out: set<Song>)
    requires Except(b, out) == []
    ensures Except(a + (b + c), out) == Except(a + c, out)
  {
    ExceptOfBoth(a, b + c, out);
    ExceptOfBoth(b, c, out);
    ExceptOfBoth(a, c, out);
  }

  lemma {:induction false} NothingTakenOut(songs: seq<Song>)
    ensures Except(songs, {}) == songs
  {
    if songs != [] {
      NothingTakenOut(songs[..|songs| - 1]);
    }
  }

  /** Without songs played at once, all requests are played in the order of asking. */
  lemma OnlyQueuedInOrder(party: Party, events: seq<Event>)
    requires AtOnce(events) == {}
    ensures AfterAll(party, events).All() == party.All() + Wishes(events)
  {
    QueuedInOrder(party, events, {});
    NothingTakenOut(AfterAll(party, events).All());
    NothingTakenOut(party.All() + Wishes(events));
  }

  /** Each request of the run is done or in line, exactly once, and those not played at
      once come in the order of asking. */
  ghost predicate AllServed(before: Party, events: seq<Event>, now: Party) {
    && multiset(now.All()) == multiset(before.All()) + multiset(Wishes(events))
    && Except(now.All(), AtOnce(events)) == Except(before.All() + Wishes(events), AtOnce(events))
    && (AtOnce(events) == {} ==> now.All() == before.All() + Wishes(events))
  }

  lemma PartyServesAll(party: Party, events: seq<Event>)
    ensures AllServed(party, events, AfterAll(party, events))
  {
    EveryRequestOnce(party, events);
    QueuedInOrder(party, events, AtOnce(events));
    if AtOnce(events) == {} {
      OnlyQueuedInOrder(party, events);
    }
  }

  /** The event as it happens: the player takes a song beyond the queue for its last. */
  function Happening(event: Event, size: nat): Event
    requires size > 0
  {
    if event.Move? then Move(Min(event.song, size - 1)) else event
  }

  ghost predicate SameButMoves(events: seq<Event>, happened: seq<Event>) {
    && |events| == |happened|
    && forall k | 0 <= k < |events| :: happened[k] == events[k] || (happened[k].Move? && events[k].Move?)
  }

  lemma {:induction false} SameWishes(events: seq<Event>, happened: seq<Event>)
    requires SameButMoves(events, happened)
    ensures Wishes(happened) == Wishes(events) && AtOnce(happened) == AtOnce(events)
  {
    if events != [] {
      var n := |events| - 1;
      SameWishes(events[..n], happened[..n]);
      assert happened[n] == events[n] || (happened[n].Move? && events[n].Move?);
    }
  }

  lemma OneMoreEvent(before: Party, events: seq<Event>, happened: seq<Event>, served: nat, next: Event)
    requires served < |events| && SameButMoves(events[..served], happened)
    requires next == events[served] || (next.Move? && events[served].Move?)
    ensures SameButMoves(events[..served + 1], happened + [next])
    ensures AfterAll(before, happened + [next]) == After(AfterAll(before, happened), next)
  {
    assert (happened + [next])[..served] == happened;
    assert forall k | 0 <= k < served :: events[..served + 1][k] == events[..served][k];
  }

  method Step(m: Manager, event: Event)
    requires m.Valid() && m.enabled && forall s | s in WishOf(event) :: s.byUser
    modifies m
    ensures m.Valid() && m.other == old(m.other)
    ensures m.Requested() == After(old(m.Requested()), Happening(event, |old(m.queue)|))
    ensures KeepsDepth(m, |old(m.queue)|)
  {
    match event {
      case Queue(songs) =>
        m.AddUserSongs(songs, false);
      case PlayNow(songs) =>
        m.AddUserSongs(songs, true);
      case Move(song) =>
        m.MovePlayer(song);
      case Started =>
        m.OnSongChange();
    }
  }

  /** No event makes the queue less deep than a refill does. */
  ghost predicate KeepsDepth(m: Manager, size: nat)
    reads m
  {
    m.enabled && m.kind != Other && size >= QUEUE_DEPTH ==> |m.queue| >= QUEUE_DEPTH
  }

  /** Over any run of additions, moves and starts the requests are those of the plain party
      above: each is done or in line, exactly once, and those that were queued keep their order.
      `served` events came before an error switched party mode off. */
  method Run(m: Manager, events: seq<Event>) returns (served: nat, ghost happened: seq<Event>)
    requires m.Valid() && m.enabled && FromUsers(events)
    modifies m
    ensures m.Valid() && m.other == old(m.other)
    ensures served <= |events| && (m.enabled ==> served == |events|)
    ensures KeepsDepth(m, |old(m.queue)|)
    ensures SameButMoves(events[..served], happened) && m.Requested() == AfterAll(old(m.Requested()), happened)
    ensures AllServed(old(m.Requested()), events[..served], m.Requested())
  {
    ghost var before := m.Requested();
    served, happened := 0, [];
    while served < |events| && m.enabled
      invariant 0 <= served <= |events| && m.Valid() && m.other == old(m.other)
      invariant KeepsDepth(m, |old(m.queue)|)
      invariant SameButMoves(events[..served], happened) && m.Requested() == AfterAll(before, happened)
    {
      ghost var next := Happening(events[served], |m.queue|);
      assert forall s | s in WishOf(events[served]) :: s.byUser;
      OneMoreEvent(before, events, happened, served, next);
      Step(m, events[served]);
      happened := happened + [next];
      served := served + 1;
    }
    PartyServesAll(before, happened);
    SameWishes(events[..served], happened);
  }
}
