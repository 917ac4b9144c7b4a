/** Reference-counted libraries and their wrappers: `CSectionLoader` and `DllDynamic`. */
module SectionLoading {
  import opened Basics

  /** Names are compared without regard to case. */
  function Key(name: string): (k: string)
    ensures |k| == |name|
  {
    seq(|name|, i requires 0 <= i < |name| => Lower(name[i]))
  }

  /** Names are the same if they have the same letters. */
  lemma KeyMeans(a: string, b: string)
    ensures Key(a) == Key(b) <==> SameLetters(a, b)
  {
    if |a| == |b| {
      forall i | 0 <= i < |a| ensures Key(a)[i] == Key(b)[i] <==> SameLetter(a[i], b[i]) {
        LowerMeans(a[i], b[i]);
      }
    }
  }

  const UNLOAD_DELAY := 30 * 1000
  const TICKS := 0x1_0000_0000

  datatype Library = Library(name: string, refCount: int, delayUnload: bool, handle: nat, startTick: int)

  /** The first entry with the name, ignoring case. */
  function IndexOf(libs: seq<Library>, name: string, from: nat := 0): (r: Option<nat>)
    requires from <= |libs|
    ensures r.Some? ==> from <= r.value < |libs| && Key(libs[r.value].name) == Key(name)
    ensures r.Some? ==> forall j | from <= j < r.value :: Key(libs[j].name) != Key(name)
    ensures r.None? ==> forall j | from <= j < |libs| :: Key(libs[j].name) != Key(name)
    decreases |libs| - from
  {
    if from == |libs| then None
    else if Key(libs[from].name) == Key(name) then Some(from)
    else IndexOf(libs, name, from + 1)
  }

  ghost predicate IsListed(libs: seq<Library>, name: string) {
    exists i :: 0 <= i < |libs| && SameLetters(libs[i].name, name)
  }

  lemma ListedMeans(libs: seq<Library>, name: string)
    ensures IndexOf(libs, name).Some? <==> IsListed(libs, name)
  {
    forall i | 0 <= i < |libs| ensures Key(libs[i].name) == Key(name) <==> SameLetters(libs[i].name, name) {
      KeyMeans(libs[i].name, name);
    }
    if IsListed(libs, name) {
      var i :| 0 <= i < |libs| && SameLetters(libs[i].name, name);
      assert Key(libs[i].name) == Key(name);
    }
  }

  /** The list with one more user of entry `i`. */
  function Taken(libs: seq<Library>, i: nat): seq<Library>
    requires i < |libs|
  {
    libs[i := libs[i].(refCount := libs[i].refCount + 1)]
  }

  /** The list when one user of entry `i` leaves at time `now`: an entry nobody uses goes, at once or later. */
  function Left(libs: seq<Library>, i: nat, now: int): seq<Library>
    requires i < |libs|
  {
    var library := libs[i].(refCount := libs[i].refCount - 1);
    if library.refCount != 0 then libs[i := library]
    else if library.delayUnload then libs[i := library.(startTick := now)]
    else libs[..i] + libs[i + 1..]
  }

  /** The handle given back when a user of entry `i` leaves. */
  function Freed(libs: seq<Library>, i: nat): set<nat>
    requires i < |libs|
  {
    if libs[i].refCount == 1 && !libs[i].delayUnload then {libs[i].handle} else {}
  }

  /** The list after unloading a name; an unknown one changes nothing. */
  function AfterUnload(libs: seq<Library>, name: string, now: int): seq<Library> {
    var i := IndexOf(libs, name);
    if name == "" || i.None? then libs else Left(libs, i.value, now)
  }

  function FreedBy(libs: seq<Library>, name: string): set<nat> {
    var i := IndexOf(libs, name);
    if name == "" || i.None? then {} else Freed(libs, i.value)
  }

  /** The list after loading a name, when a fresh library gets the handle `handle`. */
  function AfterLoad(libs: seq<Library>, name: string, delayUnload: bool, handle: nat): seq<Library> {
    var i := IndexOf(libs, name);
    if i.Some? then Taken(libs, i.value) else libs + [Library(name, 1, delayUnload, handle, 0)]
  }

  function HandleFor(libs: seq<Library>, name: string, fresh': nat): nat {
    var i := IndexOf(libs, name);
    if i.Some? then libs[i.value].handle else fresh'
  }

  ghost predicate DistinctNames(libs: seq<Library>) {
    forall i, j | 0 <= i < j < |libs| :: Key(libs[i].name) != Key(libs[j].name)
  }

  /** The list of libraries: one entry per name, live and distinct handles. */
  ghost predicate WellFormed(libs: seq<Library>, nextHandle: nat, released: set<nat>) {
    && (forall i, j | 0 <= i < j < |libs| :: Key(libs[i].name) != Key(libs[j].name) && libs[i].handle != libs[j].handle)
    && (forall i | 0 <= i < |libs| :: libs[i].name != "" && libs[i].handle < nextHandle && libs[i].handle !in released)
    && (forall h | h in released :: h < nextHandle)
    && (forall i | 0 <= i < |libs| && libs[i].refCount == 0 :: libs[i].delayUnload)
  }

  lemma WithoutWellFormed(libs: seq<Library>, i: nat, nextHandle: nat, released: set<nat>)
    requires i < |libs|
    requires WellFormed(libs[i := libs[i].(refCount := 1)], nextHandle, released)
    ensures WellFormed(Without(libs, i), nextHandle, released + {libs[i].handle})
  {
    var was := libs[i := libs[i].(refCount := 1)];
    var rest := Without(libs, i);
    assert forall k | 0 <= k < |rest| :: rest[k] == was[if k < i then k else k + 1];
    assert libs[i].handle == was[i].handle;
  }

  // ---- Who holds what ----

  /** Per loaded wrapper, the key and the handle that it holds. */
  type Holdings = map<DllDynamic, (string, nat)>

  ghost function Users(held: Holdings, key: string): set<DllDynamic> {
    set w | w in held && held[w].0 == key
  }

  ghost predicate Lists(libs: seq<Library>, key: string, handle: nat) {
    exists library :: library in libs && Key(library.name) == key && library.handle == handle
  }

  /** Each count is the number of loaded wrappers naming the library, and each of them holds a listed handle. */
  ghost predicate Balanced(libs: seq<Library>, held: Holdings) {
    && (forall i | 0 <= i < |libs| :: libs[i].refCount == |Users(held, Key(libs[i].name))|)
    && (forall w | w in held :: Lists(libs, held[w].0, held[w].1))
  }

  lemma UserJoins(held: Holdings, w: DllDynamic, key: string, handle: nat, other: string)
    requires w !in held
    ensures |Users(held[w := (key, handle)], other)| == |Users(held, other)| + if other == key then 1 else 0
  {
    var next := held[w := (key, handle)];
    if other == key {
      assert Users(next, other) == Users(held, other) + {w};
    } else {
      assert Users(next, other) == Users(held, other);
    }
  }

  lemma UserLeaves(held: Holdings, w: DllDynamic, other: string)
    requires w in held
    ensures |Users(held - {w}, other)| == |Users(held, other)| - if other == held[w].0 then 1 else 0
  {
    if other == held[w].0 {
      assert Users(held, other) == Users(held - {w}, other) + {w};
    } else {
      assert Users(held - {w}, other) == Users(held, other);
    }
  }

  /** Loading for a wrapper keeps the books. */
  lemma LoadBalances(libs: seq<Library>, nextHandle: nat, released: set<nat>, held: Holdings,
                     w: DllDynamic, name: string, delayUnload: bool)
    requires WellFormed(libs, nextHandle, released) && Balanced(libs, held) && w !in held && name != ""
    ensures var after := AfterLoad(libs, name, delayUnload, nextHandle);
            && WellFormed(after, if IndexOf(libs, name).Some? then nextHandle else nextHandle + 1, released)
            && Balanced(after, held[w := (Key(name), HandleFor(libs, name, nextHandle))])
  {
    var after := AfterLoad(libs, name, delayUnload, nextHandle);
    var handle := HandleFor(libs, name, nextHandle);
    var next := held[w := (Key(name), handle)];
    OneUserMoreIsWellFormed(libs, nextHandle, released, name, delayUnload);
    forall i | 0 <= i < |after| ensures after[i].refCount == |Users(next, Key(after[i].name))| {
      UserJoins(held, w, Key(name), handle, Key(after[i].name));
      if i == |libs| {
        NobodyNames(libs, held, name);
      }
    }
    AllStayListed(libs, after, held);
    assert after[if IndexOf(libs, name).Some? then IndexOf(libs, name).value else |libs|] in after;
  }

  lemma OneUserMoreIsWellFormed(libs: seq<Library>, nextHandle: nat, released: set<nat>, name: string,
                                delayUnload: bool)
    requires WellFormed(libs, nextHandle, released) && name != ""
    requires forall k | 0 <= k < |libs| :: libs[k].refCount >= 0
    ensures WellFormed(AfterLoad(libs, name, delayUnload, nextHandle),
                       if IndexOf(libs, name).Some? then nextHandle else nextHandle + 1, released)
  {
    var after := AfterLoad(libs, name, delayUnload, nextHandle);
    assert forall k | 0 <= k < |libs| :: after[k].name == libs[k].name && after[k].handle == libs[k].handle;
  }

  /** A library that is not listed has no users. */
  lemma NobodyNames(libs: seq<Library>, held: Holdings, name: string)
    requires Balanced(libs, held) && IndexOf(libs, name).None?
    ensures Users(held, Key(name)) == {}
  {
    forall v | v in held ensures held[v].0 != Key(name) {
      assert Lists(libs, held[v].0, held[v].1);
    }
  }

  /** Entries that keep their name and handle keep the listing. */
  lemma StaysListed(libs: seq<Library>, after: seq<Library>, key: string, handle: nat)
    requires Lists(libs, key, handle) && |libs| <= |after|
    requires forall k | 0 <= k < |libs| :: after[k].name == libs[k].name && after[k].handle == libs[k].handle
    ensures Lists(after, key, handle)
  {
    var k :| 0 <= k < |libs| && Key(libs[k].name) == key && libs[k].handle == handle;
    assert after[k] in after;
  }

  /** Unloading for a wrapper keeps the books: an entry goes only with its last user. */
  lemma UnloadBalances(libs: seq<Library>, nextHandle: nat, released: set<nat>, held: Holdings, w: DllDynamic,
                       name: string, now: int)
    requires WellFormed(libs, nextHandle, released) && Balanced(libs, held) && w in held && held[w].0 == Key(name)
    ensures WellFormed(AfterUnload(libs, name, now), nextHandle, released + FreedBy(libs, name))
    ensures Balanced(AfterUnload(libs, name, now), held - {w})
    ensures name != "" && IndexOf(libs, name).Some? && libs[IndexOf(libs, name).value].refCount > 0
  {
    assert Lists(libs, held[w].0, held[w].1);
    var i := IndexOf(libs, name).value;
    assert w in Users(held, Key(libs[i].name));
    assert libs[i].refCount > 0;
    if libs[i].refCount == 1 && !libs[i].delayUnload {
      EmptyEntryGoes(libs, nextHandle, released, held, w, i);
    } else {
      EntryStays(libs, nextHandle, released, held, w, i, now);
    }
  }

  lemma EntryStays(libs: seq<Library>, nextHandle: nat, released: set<nat>, held: Holdings, w: DllDynamic, i: nat,
                   now: int)
    requires WellFormed(libs, nextHandle, released) && Balanced(libs, held) && w in held
    requires i < |libs| && held[w].0 == Key(libs[i].name)
    requires libs[i].refCount > 1 || (libs[i].refCount == 1 && libs[i].delayUnload)
    ensures WellFormed(Left(libs, i, now), nextHandle, released) && Balanced(Left(libs, i, now), held - {w})
  {
    var after := Left(libs, i, now);
    OneUserLessIsWellFormed(libs, nextHandle, released, i, now);
    forall k | 0 <= k < |after| ensures after[k].refCount == |Users(held - {w}, Key(after[k].name))| {
      UserLeaves(held, w, Key(after[k].name));
      assert Key(libs[k].name) == held[w].0 <==> k == i;
    }
    AllStayListed(libs, after, held);
  }

  lemma AllStayListed(libs: seq<Library>, after: seq<Library>, held: Holdings)
    requires Balanced(libs, held) && |libs| <= |after|
    requires forall k | 0 <= k < |libs| :: after[k].name == libs[k].name && after[k].handle == libs[k].handle
    ensures forall v | v in held :: Lists(after, held[v].0, held[v].1)
  {
    forall v | v in held ensures Lists(after, held[v].0, held[v].1) {
      StaysListed(libs, after, held[v].0, held[v].1);
    }
  }

  lemma OneUserLessIsWellFormed(libs: seq<Library>, nextHandle: nat, released: set<nat>, i: nat, now: int)
    requires WellFormed(libs, nextHandle, released)
    requires i < |libs| && (libs[i].refCount > 1 || (libs[i].refCount == 1 && libs[i].delayUnload))
    ensures WellFormed(Left(libs, i, now), nextHandle, released)
  {
    var after := Left(libs, i, now);
    assert forall k | 0 <= k < |libs| :: after[k].name == libs[k].name && after[k].handle == libs[k].handle;
  }

  lemma EmptyEntryGoes(libs: seq<Library>, nextHandle: nat, released: set<nat>, held: Holdings, w: DllDynamic, i: nat)
    requires WellFormed(libs, nextHandle, released) && Balanced(libs, held) && w in held
    requires i < |libs| && held[w].0 == Key(libs[i].name) && libs[i].refCount == 1
    ensures WellFormed(Without(libs, i), nextHandle, released + {libs[i].handle})
    ensures Balanced(Without(libs, i), held - {w})
  {
    var rest := Without(libs, i);
    assert libs == libs[i := libs[i].(refCount := 1)];
    WithoutWellFormed(libs, i, nextHandle, released);
    forall k | 0 <= k < |rest| ensures rest[k].refCount == |Users(held - {w}, Key(rest[k].name))| {
      UserLeaves(held, w, Key(rest[k].name));
      assert rest[k] == libs[if k < i then k else k + 1];
    }
    UserLeaves(held, w, Key(libs[i].name));
    forall v | v in held - {w} ensures Lists(rest, held[v].0, held[v].1) {
      assert v !in Users(held - {w}, Key(libs[i].name));
      OthersStayListed(libs, held, v, i);
    }
  }

  /** A wrapper that names another library still finds its handle. */
  lemma OthersStayListed(libs: seq<Library>, held: Holdings, v: DllDynamic, i: nat)
    requires v in held && Lists(libs, held[v].0, held[v].1) && i < |libs|
    requires held[v].0 != Key(libs[i].name)
    ensures Lists(Without(libs, i), held[v].0, held[v].1)
  {
    var k :| 0 <= k < |libs| && Key(libs[k].name) == held[v].0 && libs[k].handle == held[v].1;
    assert Without(libs, i)[if k < i then k else k - 1] == libs[k];
  }

  /** Dropping an entry that no wrapper uses keeps the books. */
  lemma UnusedEntryGoes(libs: seq<Library>, nextHandle: nat, released: set<nat>, held: Holdings, i: nat)
    requires WellFormed(libs, nextHandle, released) && Balanced(libs, held)
    requires i < |libs| && libs[i].refCount == 0
    ensures WellFormed(Without(libs, i), nextHandle, released + {libs[i].handle}) && Balanced(Without(libs, i), held)
  {
    var rest := Without(libs, i);
    WithoutWellFormed(libs, i, nextHandle, released);
    forall v | v in held ensures Lists(rest, held[v].0, held[v].1) {
      assert v in Users(held, held[v].0);
      OthersStayListed(libs, held, v, i);
    }
  }

  predicate Overdue(library: Library, now: int) {
    library.refCount == 0 && (now - library.startTick) % TICKS > UNLOAD_DELAY
  }

  /** The first library that has been unused for long enough. */
  function FirstOverdue(libs: seq<Library>, now: int, from: nat := 0): (r: Option<nat>)
    requires from <= |libs|
    ensures r.Some? ==> from <= r.value < |libs| && Overdue(libs[r.value], now)
    ensures r.Some? ==> forall k | from <= k < r.value :: !Overdue(libs[k], now)
    ensures r.None? ==> forall k | from <= k < |libs| :: !Overdue(libs[k], now)
    decreases |libs| - from
  {
    if from == |libs| then None
    else if Overdue(libs[from], now) then Some(from)
    else FirstOverdue(libs, now, from + 1)
  }

  /** A library whose last user left at `now`, and which is to linger, is overdue exactly from
      30 seconds later on, for as long as the clock does not come round. */
  lemma DelayRunsFromTheLastUser(libs: seq<Library>, name: string, now: int, later: int)
    requires name != "" && IndexOf(libs, name).Some? && 0 <= later - now < 0x1_0000_0000
    requires var library := libs[IndexOf(libs, name).value]; library.refCount == 1 && library.delayUnload
    ensures var i := IndexOf(libs, name).value;
            && |AfterUnload(libs, name, now)| == |libs|
            && (Overdue(AfterUnload(libs, name, now)[i], later) <==> later - now > 30000)
  {
  }

  class SectionLoader {
    var libraries: seq<Library>
    var nextHandle: nat               // the operating system hands out fresh handles
    ghost var released: set<nat>      // handles given back
    ghost var wrappers: set<DllDynamic>
    ghost var held: Holdings

    constructor ()
      ensures libraries == [] && released == {} && wrappers == {} && Valid()
    {
      libraries, nextHandle, released, wrappers, held := [], 0, {}, {}, map[];
    }

    /** What a wrapper holds is what the books say. */
    ghost predicate Agrees(w: DllDynamic)
      reads this, w
    {
      w.loader == this && if w.handle.Some? then w in held && held[w] == (Key(w.name), w.handle.value) else w !in held
    }

    ghost predicate Books()
      reads this
    {
      WellFormed(libraries, nextHandle, released) && Balanced(libraries, held) && held.Keys <= wrappers
    }

    ghost predicate Valid()
      reads this, wrappers
    {
      Books() && forall w | w in wrappers :: Agrees(w)
    }

    /** Loads a library on behalf of a wrapper and enters it in the books. */
    method LoadFor(w: DllDynamic, name: string, delayUnload: bool, loadable: bool) returns (r: Option<nat>)
      requires Books() && w in wrappers && w !in held
      modifies `libraries, `nextHandle, `held
      ensures Books()
      ensures r.Some? <==> name != "" && (loadable || IsListed(old(libraries), name))
      ensures r.None? ==> libraries == old(libraries) && held == old(held)
      ensures r.Some? ==> held == old(held)[w := (Key(name), r.value)]
    {
      ghost var before, handle := libraries, nextHandle;
      r := LoadDLL(name, delayUnload, loadable);
      if r.Some? {
        LoadBalances(before, handle, released, held, w, name, delayUnload);
        held := held[w := (Key(name), r.value)];
      }
    }

    /** Unloads a library on behalf of a wrapper and strikes it from the books. */
    method UnloadFor(w: DllDynamic, name: string, now: int)
      requires Books() && w in held && held[w].0 == Key(name)
      modifies `libraries, `released, `held
      ensures Books() && held == old(held) - {w}
    {
      UnloadBalances(libraries, nextHandle, released, held, w, name, now);
      UnloadDLL(name, now);
      held := held - {w};
    }

    method Find(name: string) returns (r: Option<nat>)
      ensures r == IndexOf(libraries, name)
    {
      var i := 0;
      while i < |libraries|
        invariant 0 <= i <= |libraries|
        invariant IndexOf(libraries, name) == IndexOf(libraries, name, i)
      {
        if Key(libraries[i].name) == Key(name) {
          return Some(i);
        }
        i := i + 1;
      }
      r := None;
    }

    /** Hands out the handle of a library, loading it if need be; `loadable` tells whether that works. */
    method LoadDLL(name: string, delayUnload: bool, loadable: bool) returns (r: Option<nat>)
      modifies `libraries, `nextHandle
      ensures r.Some? <==> name != "" && (loadable || IsListed(old(libraries), name))
      ensures r.None? ==> libraries == old(libraries) && nextHandle == old(nextHandle)
      ensures r.Some? ==>
                && name != "" && r.value == HandleFor(old(libraries), name, old(nextHandle))
                && libraries == AfterLoad(old(libraries), name, delayUnload, old(nextHandle))
                && nextHandle == if IndexOf(old(libraries), name).Some? then old(nextHandle) else old(nextHandle) + 1
    {
      if name == "" {
        return None;
      }
      ListedMeans(libraries, name);
      var found := Find(name);
      if found.Some? {
        libraries := Taken(libraries, found.value);
        return Some(libraries[found.value].handle);
      }
      if !loadable {
        return None;
      }
      r := Some(nextHandle);
      libraries := libraries + [Library(name, 1, delayUnload, nextHandle, 0)];
      nextHandle := nextHandle + 1;
    }

    /** One user of entry `i` leaves. */
    method Leave(i: nat, now: int) returns (unused: bool)
      requires i < |libraries|
      modifies `libraries, `released
      ensures libraries == Left(old(libraries), i, now)
      ensures released == old(released) + Freed(old(libraries), i)
      ensures unused <==> old(libraries)[i].refCount == 1
    {
      var library := libraries[i].(refCount := libraries[i].refCount - 1);
      unused := library.refCount == 0;
      libraries := libraries[i := library];
      if unused {
        if library.delayUnload {
          libraries := libraries[i := library.(startTick := now)];
        } else {
          released := released + {library.handle};
          libraries := Without(libraries, i);
        }
      }
    }

    method UnloadDLL(name: string, now: int)
      requires DistinctNames(libraries)
      modifies `libraries, `released
      ensures libraries == AfterUnload(old(libraries), name, now)
      ensures released == old(released) + FreedBy(old(libraries), name)
    {
      if name == "" {
        return;
      }
      ghost var start, found := libraries, IndexOf(libraries, name);
      var i := 0;
      while i < |libraries|
        invariant 0 <= i <= |libraries| == |start| && released == old(released)
        invariant found.None? || i <= found.value ==> libraries == start
        invariant found.Some? && i > found.value ==>
                    libraries == Left(start, found.value, now) && Freed(start, found.value) == {}
      {
        if Key(libraries[i].name) == Key(name) {
          var unused := Leave(i, now);
          if unused {
            return;
          }
        }
        i := i + 1;
      }
    }

    method Erase(i: nat)
      requires Valid() && i < |libraries| && libraries[i].refCount == 0
      modifies `libraries, `released
      ensures Valid()
      ensures libraries == Without(old(libraries), i) && released == old(released) + {old(libraries)[i].handle}
    {
      UnusedEntryGoes(libraries, nextHandle, released, held, i);
      released := released + {libraries[i].handle};
      libraries := Without(libraries, i);
    }

    /** Gives back the first library that has been unused for long enough. */
    method UnloadDelayed(now: int)
      requires Valid()
      modifies `libraries, `released
      ensures Valid()
      ensures match FirstOverdue(old(libraries), now)
              case Some(i) =>
                libraries == Without(old(libraries), i) && released == old(released) + {old(libraries)[i].handle}
              case None => libraries == old(libraries) && released == old(released)
    {
      var i := 0;
      while i < |libraries|
        invariant 0 <= i <= |libraries|
        invariant FirstOverdue(libraries, now) == FirstOverdue(libraries, now, i)
      {
        if libraries[i].refCount == 0 && (now - libraries[i].startTick) % TICKS > UNLOAD_DELAY {
          Erase(i);
          return;
        }
        i := i + 1;
      }
    }
  }

  class DllDynamic {
    const loader: SectionLoader
    var handle: Option<nat>
    var name: string
    var delayUnload: bool

    constructor (loader: SectionLoader, name: string)
      requires loader.Valid()
      modifies loader`wrappers
      ensures this.loader == loader && this.name == name && handle.None? && delayUnload
      ensures loader.Valid() && loader.wrappers == old(loader.wrappers) + {this}
    {
      this.loader, this.name, handle, delayUnload := loader, name, None, true;
      new;
      loader.wrappers := loader.wrappers + {this};
    }

    /** Takes a handle from the loader. */
    method Acquire(loadable: bool) returns (ok: bool)
      requires loader.Valid() && this in loader.wrappers && handle.None?
      modifies this`handle, loader`libraries, loader`nextHandle, loader`held
      ensures loader.Valid() && (ok <==> handle.Some?)
      ensures ok <==> name != "" && (loadable || IsListed(old(loader.libraries), name))
    {
      assert loader.Agrees(this);
      handle := loader.LoadFor(this, name, delayUnload, loadable);
      ok := handle.Some?;
    }

    /** Gives the handle back. */
    method GiveBack(now: int)
      requires loader.Valid() && this in loader.wrappers && handle.Some?
      modifies this`handle, loader`libraries, loader`released, loader`held
      ensures loader.Valid() && handle.None?
    {
      assert loader.Agrees(this);
      loader.UnloadFor(this, name, now);
      handle := None;
    }

    /** Loads the library under the wrapper's name; `loadable` and `resolvable` tell whether loading it,
        and resolving its symbols, works. */
    method Load(now: int, loadable: bool, resolvable: bool) returns (ok: bool)
      requires loader.Valid() && this in loader.wrappers
      modifies this`handle, loader`libraries, loader`nextHandle, loader`released, loader`held
      ensures loader.Valid() && (ok <==> handle.Some?)
      ensures old(handle.Some?) ==> ok && handle == old(handle) && loader.libraries == old(loader.libraries)
      ensures old(handle.None?) ==>
                (ok <==> name != "" && (loadable || IsListed(old(loader.libraries), name)) && resolvable)
    {
      if handle.Some? {
        return true;
      }
      ok := Acquire(loadable);
      if !ok {
        return;
      }
      if !resolvable {
        Unload(now);
        ok := false;
      }
    }

    /** Gives the library back, if one is held. */
    method Unload(now: int)
      requires loader.Valid() && this in loader.wrappers
      modifies this`handle, loader`libraries, loader`released, loader`held
      ensures loader.Valid() && handle.None?
      ensures old(handle.None?) ==> loader.libraries == old(loader.libraries) && loader.released == old(loader.released)
    {
      if handle.Some? {
        GiveBack(now);
      }
    }

    /** Neither the name nor the unloading mode changes while a library is held. */
    method SetFile(name: string) returns (ok: bool)
      requires loader.Valid() && this in loader.wrappers
      modifies this`name
      ensures loader.Valid() && (ok <==> handle.None?)
      ensures this.name == if ok then name else old(this.name)
    {
      if handle.Some? {
        return false;
      }
      this.name := name;
      ok := true;
    }

    method EnableDelayedUnload(on: bool) returns (ok: bool)
      requires loader.Valid() && this in loader.wrappers
      modifies this`delayUnload
      ensures loader.Valid() && (ok <==> handle.None?)
      ensures delayUnload == if ok then on else old(delayUnload)
    {
      if handle.Some? {
        return false;
      }
      delayUnload := on;
      ok := true;
    }
  }

  // ---- What the books promise ----

  /** No wrapper holds a released library, and the library it holds counts it. */
  lemma HeldIsLive(loader: SectionLoader, w: DllDynamic) returns (i: nat)
    requires loader.Valid() && w in loader.wrappers && w.handle.Some?
    ensures i < |loader.libraries| && Key(loader.libraries[i].name) == Key(w.name)
    ensures loader.libraries[i].handle == w.handle.value && w.handle.value !in loader.released
    ensures loader.libraries[i].refCount >= 1
  {
    assert loader.Agrees(w) && Lists(loader.libraries, loader.held[w].0, loader.held[w].1);
    i :| 0 <= i < |loader.libraries| && Key(loader.libraries[i].name) == Key(w.name)
        && loader.libraries[i].handle == w.handle.value;
    assert w in Users(loader.held, Key(loader.libraries[i].name));
  }

  /** The count of a library is the number of loaded wrappers that name it, ignoring case. */
  lemma CountIsLoadedWrappers(loader: SectionLoader, i: nat)
    requires loader.Valid() && i < |loader.libraries|
    ensures loader.libraries[i].refCount
            == |set w | w in loader.wrappers && w.handle.Some? && Key(w.name) == Key(loader.libraries[i].name)|
  {
    var key := Key(loader.libraries[i].name);
    var naming := set w | w in loader.wrappers && w.handle.Some? && Key(w.name) == key;
    assert naming == Users(loader.held, key) by {
      forall w | w in loader.wrappers ensures w in naming <==> w in Users(loader.held, key) {
        assert loader.Agrees(w);
      }
    }
  }
}
