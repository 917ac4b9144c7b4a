/** The reference-counted cache of large textures: `CGUILargeTextureManager`. */
module LargeTextures {
  import opened Basics

  /** An image in the cache; the texture is an opaque handle. */
  class LargeTexture {
    const path: string
    var refCount: nat
    var texture: Option<nat>
    var timeToDelete: int

    constructor (path: string)
      ensures this.path == path && refCount == 1 && texture == None && timeToDelete == 0
    {
      this.path, refCount, texture, timeToDelete := path, 1, None, 0;
    }
  }

  const TIME_TO_DELETE := 2000

  datatype Job = Job(id: nat, image: LargeTexture)

  ghost function JobImages(jobs: seq<Job>): set<LargeTexture> {
    set i | 0 <= i < |jobs| :: jobs[i].image
  }

  lemma JobAppended(jobs: seq<Job>, job: Job)
    ensures JobImages(jobs + [job]) == JobImages(jobs) + {job.image}
  {
    var next := jobs + [job];
    assert next[|jobs|] == job;
    assert forall i | 0 <= i < |jobs| :: next[i] == jobs[i];
  }

  ghost predicate DistinctJobs(jobs: seq<Job>) {
    forall i, j | 0 <= i < j < |jobs| :: jobs[i].image != jobs[j].image && jobs[i].id != jobs[j].id
  }

  lemma JobRemoved(jobs: seq<Job>, i: nat)
    requires i < |jobs| && DistinctJobs(jobs)
    ensures DistinctJobs(Without(jobs, i))
    ensures JobImages(Without(jobs, i)) == JobImages(jobs) - {jobs[i].image}
  {
    var rest := Without(jobs, i);
    forall a | a in JobImages(jobs) - {jobs[i].image} ensures a in JobImages(rest) {
      var k :| 0 <= k < |jobs| && jobs[k].image == a;
      assert rest[if k < i then k else k - 1] == jobs[k];
    }
  }

  /** What a caller of `GetImage` learns. */
  datatype Reply = Reply(texture: Option<nat>, exists': bool)

  class LargeTextureManager {
    var queued: seq<Job>
    var loaded: seq<LargeTexture>
    var nextJob: nat              // the job manager hands out fresh ids
    ghost var live: set<LargeTexture>
    ghost var owed: map<string, nat> // first requests not yet released

    /** Outstanding first requests for a path. */
    ghost function Owed(path: string): nat
      reads this
    {
      if path in owed then owed[path] else 0
    }

    /** The two lists hold distinct images, distinct by path and by job id. */
    ghost predicate Structure()
      reads this
    {
      // the live images are exactly those in the two lists
      && live == LoadedSet() + QueuedSet()
      && (forall i, j | 0 <= i < j < |loaded| :: loaded[i] != loaded[j])
      && DistinctJobs(queued)
      && LoadedSet() !! QueuedSet()
      // each path occurs at most once
      && (forall a, b | a in live && b in live && a.path == b.path :: a == b)
      && (forall a | a in live :: a.path != "")
      && (forall i | 0 <= i < |queued| :: queued[i].id < nextJob)
    }

    ghost function LoadedSet(): set<LargeTexture>
      reads this
    {
      set a | a in loaded
    }

    ghost function QueuedSet(): set<LargeTexture>
      reads this
    {
      JobImages(queued)
    }

    /** Some image in the cache has the path. */
    ghost predicate Knows(path: string)
      reads this, live
    {
      exists a :: a in live && a.path == path
    }

    /** The count of an image is the number of outstanding first requests for its path. */
    ghost predicate Counts()
      reads this, live
    {
      && (forall a | a in live :: a.refCount == Owed(a.path))
      && (forall path | path in owed && owed[path] > 0 :: Knows(path))
    }

    ghost predicate Valid()
      reads this, live
    {
      && Structure() && Counts()
      // queued images are wanted and not loaded
      && (forall a | a in QueuedSet() && a in live :: a.refCount >= 1 && a.texture.None?)
    }

    constructor ()
      ensures Valid() && queued == [] && loaded == [] && live == {} && owed == map[]
    {
      queued, loaded, nextJob, live, owed := [], [], 0, {}, map[];
    }

    method FindLoaded(path: string) returns (r: Option<nat>)
      ensures r.Some? ==> r.value < |loaded| && loaded[r.value].path == path
      ensures r.None? ==> forall i | 0 <= i < |loaded| :: loaded[i].path != path
    {
      var i := 0;
      while i < |loaded|
        invariant 0 <= i <= |loaded|
        invariant forall k | 0 <= k < i :: loaded[k].path != path
      {
        if loaded[i].path == path {
          return Some(i);
        }
        i := i + 1;
      }
      r := None;
    }

    method FindQueued(path: string) returns (r: Option<nat>)
      ensures r.Some? ==> r.value < |queued| && queued[r.value].image.path == path
      ensures r.None? ==> forall i | 0 <= i < |queued| :: queued[i].image.path != path
    {
      var i := 0;
      while i < |queued|
        invariant 0 <= i <= |queued|
        invariant forall k | 0 <= k < i :: queued[k].image.path != path
      {
        if queued[i].image.path == path {
          return Some(i);
        }
        i := i + 1;
      }
      r := None;
    }

    /** One more client holds the image. */
    method AddRef(image: LargeTexture)
      requires Valid() && image in live
      modifies `owed, image`refCount
      ensures Valid() && image.refCount == old(image.refCount) + 1
      ensures owed == old(owed)[image.path := old(Owed(image.path)) + 1]
    {
      image.refCount := image.refCount + 1;
      owed := owed[image.path := Owed(image.path) + 1];
    }

    /** A first request is remembered, except for the empty path. */
    method GetImage(path: string, firstRequest: bool) returns (r: Reply)
      requires Valid()
      modifies this, live`refCount
      ensures Valid() && fresh(live - old(live)) && old(live) <= live
      ensures owed == if firstRequest && path != "" then old(owed)[path := old(Owed(path)) + 1] else old(owed)
      ensures loaded == old(loaded) && old(queued) <= queued
      ensures if i :| 0 <= i < |loaded| && loaded[i].path == path
              then r == Reply(loaded[i].texture, loaded[i].texture.Some?)
              else r == Reply(None, true)
    {
      var found := FindLoaded(path);
      if found.Some? {
        var image := loaded[found.value];
        assert image in LoadedSet();
        if firstRequest {
          AddRef(image);
        }
        return Reply(image.texture, image.texture.Some?);
      }
      if firstRequest {
        QueueImage(path);
      }
      r := Reply(None, true);
    }

    /** Queues the image and starts loading it, unless it is queued already. */
    method QueueImage(path: string)
      requires Valid() && forall i | 0 <= i < |loaded| :: loaded[i].path != path
      modifies this, live`refCount
      ensures Valid() && fresh(live - old(live)) && old(live) <= live
      ensures owed == if path != "" then old(owed)[path := old(Owed(path)) + 1] else old(owed)
      ensures loaded == old(loaded) && old(queued) <= queued
      ensures path != "" ==> exists i :: 0 <= i < |queued| && queued[i].image.path == path
    {
      if path == "" {
        return;
      }
      var found := FindQueued(path);
      if found.Some? {
        assert queued[found.value].image in QueuedSet();
        AddRef(queued[found.value].image);
        return;
      }
      NotHeld(path);
      StartJob(path);
    }

    /** A new image with a new job. */
    method StartJob(path: string)
      requires Valid() && path != "" && Owed(path) == 0 && forall a | a in live :: a.path != path
      modifies this
      ensures Valid() && fresh(live - old(live)) && old(live) <= live
      ensures owed == old(owed)[path := 1] && loaded == old(loaded)
      ensures |queued| == |old(queued)| + 1 && old(queued) <= queued && queued[|old(queued)|].image.path == path
    {
      var image := new LargeTexture(path);
      JobAppended(queued, Job(nextJob, image));
      ghost var before := live;
      queued := queued + [Job(nextJob, image)];
      nextJob := nextJob + 1;
      live := live + {image};
      owed := owed[path := 1];
      assert image !in before && image !in loaded;
      assert Structure();
      assert Counts();
    }

    /** A path in neither list is not held, and nobody owes its release. */
    lemma NotHeld(path: string)
      requires Valid()
      requires forall i | 0 <= i < |loaded| :: loaded[i].path != path
      requires forall i | 0 <= i < |queued| :: queued[i].image.path != path
      ensures Owed(path) == 0 && forall a | a in live :: a.path != path
    {
    }

    /** The client that asked first gives the image back; a path that is not in
        the cache is ignored. `now` is the frame time. */
    method ReleaseImage(path: string, immediately: bool, now: int)
      requires Valid() && (Knows(path) ==> Owed(path) > 0)
      modifies this, live`refCount, live`timeToDelete
      ensures Valid() && live <= old(live) && nextJob == old(nextJob)
      ensures owed == if old(Knows(path)) then old(owed)[path := old(Owed(path)) - 1] else old(owed)
      ensures !old(Knows(path)) ==> live == old(live) && loaded == old(loaded) && queued == old(queued)
      // the image goes with its last client, unless it is loaded and may linger
      ensures forall a | a in old(live) && a.path != path :: a in live && a.refCount == old(a.refCount)
      ensures forall a | a in old(live) && a.path == path ::
                a in live <==> old(Owed(path)) > 1 || (old(a in LoadedSet()) && !immediately)
      ensures forall a | a in live && a.path == path && a.refCount == 0 :: a.timeToDelete == now + TIME_TO_DELETE
      ensures forall a | a in live && (a.path != path || a.refCount > 0) :: a.timeToDelete == old(a.timeToDelete)
    {
      var found := FindLoaded(path);
      if found.Some? {
        OnlyImage(loaded[found.value]);
        ReleaseLoaded(found.value, immediately, now);
        return;
      }
      var waiting := FindQueued(path);
      if waiting.Some? {
        OnlyImage(queued[waiting.value].image);
        ReleaseWaiting(waiting.value, now);
      } else {
        NotHeld(path);
      }
    }

    /** An image in one of the lists is the only one with its path, and in that list alone. */
    lemma OnlyImage(image: LargeTexture)
      requires Valid() && (image in loaded || image in QueuedSet())
      ensures image in live && Knows(image.path) && (image in LoadedSet() <==> image in loaded)
      ensures forall a | a in live && a.path == image.path :: a == image
      ensures image.refCount == Owed(image.path)
    {
    }

    /** A client that asked for a loaded image gives it back. */
    method ReleaseLoaded(i: nat, immediately: bool, now: int)
      requires Valid() && i < |loaded| && loaded[i].refCount > 0
      modifies this, live`refCount, live`timeToDelete
      ensures Valid() && nextJob == old(nextJob)
      ensures var image := old(loaded)[i];
              && owed == old(owed)[image.path := old(Owed(image.path)) - 1]
              && live == (if old(image.refCount) == 1 && immediately then old(live) - {image} else old(live))
              && image.refCount == old(image.refCount) - 1
              && (image.timeToDelete == if image.refCount == 0 && !immediately
                                        then now + TIME_TO_DELETE
                                        else old(image.timeToDelete))
              && forall a | a in old(live) && a != image ::
                   a.refCount == old(a.refCount) && a.timeToDelete == old(a.timeToDelete)
    {
      var image := loaded[i];
      assert image in LoadedSet();
      DecrRef(image, immediately, now);
      if image.refCount == 0 && immediately {
        EraseLoaded(i);
      }
    }

    /** A client that asked for a queued image gives it back. */
    method ReleaseWaiting(i: nat, now: int)
      requires Valid() && i < |queued|
      modifies this, live`refCount, live`timeToDelete
      ensures Valid() && nextJob == old(nextJob)
      ensures var image := old(queued)[i].image;
              && owed == old(owed)[image.path := old(Owed(image.path)) - 1]
              && live == (if old(image.refCount) == 1 then old(live) - {image} else old(live))
              && image.refCount == old(image.refCount) - 1
              && (forall a | a in old(live) && a != image :: a.refCount == old(a.refCount))
              && forall a | a in old(live) :: a.timeToDelete == old(a.timeToDelete)
    {
      var image := queued[i].image;
      assert image in QueuedSet();
      if image.refCount == 1 {
        CancelJob(i);
      } else {
        DecrRef(image, true, now);
      }
    }

    /** One client less, with one to spare or with the image loaded. */
    method DecrRef(image: LargeTexture, immediately: bool, now: int)
      requires Valid() && image in live && image.refCount > 0
      requires image in LoadedSet() || image.refCount > 1
      modifies `owed, image`refCount, image`timeToDelete
      ensures Valid() && image.refCount == old(image.refCount) - 1
      ensures owed == old(owed)[image.path := old(Owed(image.path)) - 1]
      ensures image.timeToDelete == if image.refCount == 0 && !immediately
                                    then now + TIME_TO_DELETE
                                    else old(image.timeToDelete)
    {
      assert forall a | a in live && a.path == image.path :: a == image;
      image.refCount := image.refCount - 1;
      owed := owed[image.path := Owed(image.path) - 1];
      if image.refCount == 0 && !immediately {
        image.timeToDelete := now + TIME_TO_DELETE;
      }
      assert Structure();
    }

    /** Deletes a loaded image that nobody uses. */
    method EraseLoaded(i: nat)
      requires Valid() && i < |loaded| && loaded[i].refCount == 0
      modifies `loaded, `live
      ensures Valid() && loaded == Without(old(loaded), i) && live == old(live) - {old(loaded)[i]}
    {
      assert loaded[i] in LoadedSet();
      ghost var image, before := loaded[i], loaded;
      loaded := Without(loaded, i);
      live := live - {image};
      forall a | a in before && a != image ensures a in loaded {
        var k :| 0 <= k < |before| && before[k] == a;
        OthersStay(before, i, k);
      }
      assert LoadedSet() == (set a | a in before) - {image};
      assert Structure();
      assert Counts();
    }

    /** Deletes a queued image with its last client, and cancels its job. */
    method CancelJob(i: nat)
      requires Valid() && i < |queued| && queued[i].image.refCount == 1
      modifies `queued, `live, `owed, queued[i].image`refCount
      ensures old(queued)[i].image.refCount == 0
      ensures Valid() && queued == Without(old(queued), i) && live == old(live) - {old(queued)[i].image}
      ensures owed == old(owed)[old(queued)[i].image.path := 0]
    {
      var image := queued[i].image;
      assert image in QueuedSet();
      image.refCount := image.refCount - 1;
      JobRemoved(queued, i);
      queued := Without(queued, i);
      live := live - {image};
      owed := owed[image.path := 0];
      assert Structure();
      assert Counts();
    }

    /** Moves a queued image, with what was loaded for it, to the loaded ones. */
    method TakeLoaded(i: nat, texture: Option<nat>)
      requires Valid() && i < |queued|
      modifies `queued, `loaded, queued[i].image`texture
      ensures Valid()
      ensures queued == Without(old(queued), i) && loaded == old(loaded) + [old(queued)[i].image]
      ensures old(queued)[i].image.texture == texture
    {
      var image := queued[i].image;
      assert image in QueuedSet();
      image.texture := texture;
      JobRemoved(queued, i);
      ghost var before := loaded;
      queued := Without(queued, i);
      loaded := loaded + [image];
      assert LoadedSet() == (set a | a in before) + {image};
      assert Structure();
    }

    /** A finished job: `texture` is None when loading failed. A job that was
        cancelled in the meantime is no longer known, and nothing happens. */
    method OnJobComplete(id: nat, texture: Option<nat>)
      requires Valid()
      modifies this, QueuedSet()`texture
      ensures Valid() && live == old(live) && owed == old(owed)
      ensures if i :| 0 <= i < |old(queued)| && old(queued)[i].id == id
              then && queued == Without(old(queued), i) && loaded == old(loaded) + [old(queued)[i].image]
                   && old(queued)[i].image.texture == texture
                   && forall a | a in live && a != old(queued)[i].image :: a.texture == old(a.texture)
              else queued == old(queued) && loaded == old(loaded) && nextJob == old(nextJob)
                   && forall a | a in live :: unchanged(a)
    {
      var i := 0;
      while i < |queued|
        invariant 0 <= i <= |queued|
        invariant forall k | 0 <= k < i :: queued[k].id != id
      {
        if queued[i].id == id {
          TakeLoaded(i, texture);
          return;
        }
        i := i + 1;
      }
    }

    /** Deletes the loaded images that are unused for long enough, and only those. */
    method CleanupUnusedImages(immediately: bool, now: int)
      requires Valid()
      modifies `loaded, `live
      ensures Valid()
      ensures forall a | a in old(loaded) :: a in loaded <==> !Expired(a, immediately, now)
      ensures forall a | a in loaded :: a in old(loaded)
    {
      var i := 0;
      while i < |loaded|
        invariant 0 <= i <= |loaded|
        invariant Valid()
        invariant forall a | a in old(loaded) :: a in loaded || Expired(a, immediately, now)
        invariant forall a | a in loaded :: a in old(loaded)
        invariant forall k | 0 <= k < i :: !Expired(loaded[k], immediately, now)
        decreases |loaded| - i
      {
        if loaded[i].refCount == 0 && (immediately || loaded[i].timeToDelete < now) {
          EraseLoaded(i);
        } else {
          i := i + 1;
        }
      }
    }
  }

  /** Nobody uses the image, and it has lingered long enough. */
  ghost predicate Expired(image: LargeTexture, immediately: bool, now: int)
    reads image
  {
    image.refCount == 0 && (immediately || image.timeToDelete < now)
  }

  // ---- Whole runs ----

  datatype Event =
    | Request(path: string, firstRequest: bool)
    | Release(path: string, immediately: bool, now: int)
    | Complete(id: nat, texture: Option<nat>)
    | Cleanup(immediately: bool, now: int)

  /** How an event changes the number of outstanding requests for a path. */
  function Delta(event: Event, path: string): int {
    match event
    case Request(p, first) => if p == path && first then 1 else 0
    case Release(p, _, _) => if p == path then -1 else 0
    case _ => 0
  }

  /** First requests minus releases of a path. */
  function Net(events: seq<Event>, path: string): int {
    if events == [] then 0 else Net(events[..|events| - 1], path) + Delta(events[|events| - 1], path)
  }

  /** Clients release only what they have requested. */
  ghost predicate Fair(events: seq<Event>) {
    forall k | 0 <= k < |events| && events[k].Release? :: events[k].path != "" && Net(events[..k], events[k].path) > 0
  }

  method Step(m: LargeTextureManager, event: Event)
    requires m.Valid() && (event.Release? ==> m.Owed(event.path) > 0)
    modifies m, m.live
    ensures m.Valid() && fresh(m.live - old(m.live))
    ensures forall path | path != "" :: m.Owed(path) == old(m.Owed(path)) + Delta(event, path)
    ensures event.Complete? ==> forall i | 0 <= i < |m.queued| :: m.queued[i].id != event.id
    ensures event.Cleanup? ==> forall a | a in m.loaded :: !Expired(a, event.immediately, event.now)
  {
    match event {
      case Request(path, first) =>
        var reply := m.GetImage(path, first);
      case Release(path, immediately, now) =>
        m.ReleaseImage(path, immediately, now);
      case Complete(id, texture) =>
        m.OnJobComplete(id, texture);
        assert forall path :: m.Owed(path) == old(m.Owed(path));
      case Cleanup(immediately, now) =>
        m.CleanupUnusedImages(immediately, now);
        assert forall path :: m.Owed(path) == old(m.Owed(path));
    }
  }

  /** Any fair run, from the start: the manager stays valid, so every image is
      counted by exactly the requests outstanding for its path. */
  method Run(events: seq<Event>) returns (m: LargeTextureManager)
    requires Fair(events)
    ensures m.Valid()
    ensures forall path | path != "" :: m.Owed(path) == Net(events, path)
  {
    m := new LargeTextureManager();
    var k := 0;
    while k < |events|
      invariant 0 <= k <= |events|
      invariant fresh(m) && fresh(m.live) && m.Valid()
      invariant forall path | path != "" :: m.Owed(path) == Net(events[..k], path)
    {
      assert events[..k + 1][..k] == events[..k];
      Step(m, events[k]);
      k := k + 1;
    }
    assert events[..k] == events;
  }
}
