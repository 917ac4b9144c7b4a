/** The list of file items with its optional lookup map: `CFileItemList`. */
module FileItemLists {
  import opened Basics

  /** A stored value: numbers, flags and texts, and values with a codec of their own. */
  datatype Token = Number(n: int) | Flag(b: bool) | Text(s: string) | Opaque(v: nat)

  /** The tags of an item, each with a codec of its own. */
  datatype Tags = Tags(music: Option<nat>, video: Option<nat>, rds: Option<nat>, picture: Option<nat>)

  const NO_TAGS := Tags(None, None, None, None)

  /** What an archive keeps of an item besides its path. */
  datatype Fields = Fields(
    isFolder: bool, label1: string, label2: string, sortLabel: string, icon: string, selected: bool, overlay: int,
    properties: map<string, Token>, art: map<string, Token>, artFallbacks: map<string, Token>,
    isParentFolder: bool, labelPreformatted: bool, isShareOrDrive: bool, driveType: int, dateTime: nat, size: int,
    dvdLabel: string, title: string, programCount: int, depth: int, startOffset: int, startPartNumber: int,
        endOffset: int,
    lockMode: int, lockCode: string, badPwdCount: int, canQueue: bool, mimeType: string, extraInfo: string,
    specialSort: int, doContentLookup: bool, tags: Tags)

  /** An item, told apart from its copies by `id`. */
  datatype Item = Item(id: nat, path: string, fields: Fields)

  datatype SortDescription = SortDescription(key: int, order: int, attributes: int)

  datatype ViewSort = ViewSort(sort: SortDescription, buttonLabel: int,
                               labelFile: string, labelFolder: string, label2File: string, label2Folder: string)

  /** How a list is shown and cached. */
  datatype Presentation = Presentation(sort: SortDescription, ignoreFolders: bool, cacheToDisc: int,
                                       views: seq<ViewSort>, content: string)

  const CACHE_IF_SLOW := 1

  const PLAIN := Presentation(SortDescription(0, 0, 0), false, CACHE_IF_SLOW, [], "")

  type KeyOf = string -> string

  /** The first item with the key, from `from` on: what a linear scan finds. */
  function Scan(keyOf: KeyOf, items: seq<Item>, key: string, from: nat := 0): (r: Option<nat>)
    requires from <= |items|
    ensures r.Some? ==> from <= r.value < |items| && keyOf(items[r.value].path) == key
    ensures r.Some? ==> forall j | from <= j < r.value :: keyOf(items[j].path) != key
    ensures r.None? ==> forall j | from <= j < |items| :: keyOf(items[j].path) != key
    decreases |items| - from
  {
    if from == |items| then None
    else if keyOf(items[from].path) == key then Some(from)
    else Scan(keyOf, items, key, from + 1)
  }

  function Found(keyOf: KeyOf, items: seq<Item>, key: string): Option<Item> {
    var i := Scan(keyOf, items, key);
    if i.Some? then Some(items[i.value]) else None
  }

  function Looked(lookup: map<string, Item>, key: string): Option<Item> {
    if key in lookup then Some(lookup[key]) else None
  }

  /** The map answers every question as a linear scan would. */
  ghost predicate Agrees(keyOf: KeyOf, items: seq<Item>, lookup: map<string, Item>) {
    forall key :: Looked(lookup, key) == Found(keyOf, items, key)
  }

  /** An insertion that leaves an existing entry alone. */
  function Inserted(lookup: map<string, Item>, key: string, item: Item): map<string, Item> {
    if key in lookup then lookup else lookup[key := item]
  }

  function InsertedAt(items: seq<Item>, i: nat, item: Item): (r: seq<Item>)
    requires i <= |items|
    ensures |r| == |items| + 1
    ensures forall k | 0 <= k < |r| :: r[k] == if k < i then items[k] else if k == i then item else items[k - 1]
  {
    items[..i] + [item] + items[i..]
  }

  lemma ScanIs(keyOf: KeyOf, items: seq<Item>, key: string, i: nat)
    requires i < |items| && keyOf(items[i].path) == key
    requires forall j | 0 <= j < i :: keyOf(items[j].path) != key
    ensures Scan(keyOf, items, key) == Some(i)
  {
  }

  lemma ScanIsNone(keyOf: KeyOf, items: seq<Item>, key: string)
    requires forall j | 0 <= j < |items| :: keyOf(items[j].path) != key
    ensures Scan(keyOf, items, key).None?
  {
  }

  // ---- Each change of the list, with its change of the map ----

  /** Adding at the end agrees in every case: the entry that was there first stays. */
  lemma AddAgrees(keyOf: KeyOf, items: seq<Item>, lookup: map<string, Item>, item: Item)
    requires Agrees(keyOf, items, lookup)
    ensures Agrees(keyOf, items + [item], Inserted(lookup, keyOf(item.path), item))
  {
    var next := items + [item];
    forall key ensures Looked(Inserted(lookup, keyOf(item.path), item), key) == Found(keyOf, next, key) {
      assert Looked(lookup, key) == Found(keyOf, items, key);
      var i := Scan(keyOf, items, key);
      if i.Some? {
        assert next[i.value] == items[i.value];
        ScanIs(keyOf, next, key, i.value);
      } else if keyOf(item.path) == key {
        ScanIs(keyOf, next, key, |items|);
      } else {
        ScanIsNone(keyOf, next, key);
      }
    }
  }

  /** The key is new, or its first item stays in front, or is this very item. */
  predicate MayGoAt(keyOf: KeyOf, items: seq<Item>, i: nat, item: Item) {
    var f := Scan(keyOf, items, keyOf(item.path));
    f.None? || f.value < i || items[f.value] == item
  }

  /** No other item has the key of item `i`. */
  ghost predicate AloneWithKey(keyOf: KeyOf, items: seq<Item>, i: nat)
    requires i < |items|
  {
    forall j | 0 <= j < |items| && j != i :: keyOf(items[j].path) != keyOf(items[i].path)
  }

  /** What a scan finds after an insertion in the middle. */
  lemma InsertFound(keyOf: KeyOf, items: seq<Item>, i: nat, item: Item, key: string)
    requires i <= |items|
    ensures var f := Scan(keyOf, items, key);
            Found(keyOf, InsertedAt(items, i, item), key) ==
            if key == keyOf(item.path) && (f.None? || f.value >= i) then Some(item) else Found(keyOf, items, key)
  {
    var next := InsertedAt(items, i, item);
    var f := Scan(keyOf, items, key);
    if key == keyOf(item.path) && (f.None? || f.value >= i) {
      ScanIs(keyOf, next, key, i);
    } else if f.Some? {
      var n := if f.value < i then f.value else f.value + 1;
      assert next[n] == items[f.value];
      ScanIs(keyOf, next, key, n);
    } else {
      ScanIsNone(keyOf, next, key);
    }
  }

  /** Inserting in the middle agrees exactly when the item may go there. */
  lemma InsertAgrees(keyOf: KeyOf, items: seq<Item>, lookup: map<string, Item>, i: nat, item: Item)
    requires Agrees(keyOf, items, lookup) && i <= |items|
    ensures Agrees(keyOf, InsertedAt(items, i, item), Inserted(lookup, keyOf(item.path), item))
            <==> MayGoAt(keyOf, items, i, item)
  {
    var next, after := InsertedAt(items, i, item), Inserted(lookup, keyOf(item.path), item);
    var own := keyOf(item.path);
    InsertFound(keyOf, items, i, item, own);
    assert Looked(lookup, own) == Found(keyOf, items, own);
    forall key | key != own ensures Looked(after, key) == Found(keyOf, next, key) {
      InsertFound(keyOf, items, i, item, key);
      assert Looked(lookup, key) == Found(keyOf, items, key);
    }
    assert Agrees(keyOf, next, after) <==> Looked(after, own) == Found(keyOf, next, own);
  }

  /** Removing an item together with the entry of its key agrees exactly when no
      other item has that key. */
  lemma RemoveAgrees(keyOf: KeyOf, items: seq<Item>, lookup: map<string, Item>, i: nat)
    requires Agrees(keyOf, items, lookup) && i < |items|
    ensures Agrees(keyOf, Without(items, i), lookup - {keyOf(items[i].path)})
            <==> AloneWithKey(keyOf, items, i)
  {
    var next := Without(items, i);
    var own := keyOf(items[i].path);
    forall key | key != own ensures Found(keyOf, next, key) == Found(keyOf, items, key) {
      var f := Scan(keyOf, items, key);
      if f.Some? {
        ScanIs(keyOf, next, key, if f.value < i then f.value else f.value - 1);
      } else {
        ScanIsNone(keyOf, next, key);
      }
    }
    if j :| 0 <= j < |items| && j != i && keyOf(items[j].path) == own {
      assert keyOf(next[if j < i then j else j - 1].path) == own;
      assert Found(keyOf, next, own).Some? && Looked(lookup - {own}, own).None?;
    } else {
      ScanIsNone(keyOf, next, own);
      forall key ensures Looked(lookup - {own}, key) == Found(keyOf, next, key) {
        assert Looked(lookup, key) == Found(keyOf, items, key);
      }
    }
  }

  /** The same items, each as often, in any order. */
  ghost predicate SameItems(items: seq<Item>, next: seq<Item>) {
    multiset(items) == multiset(next)
  }

  lemma SameMembers(items: seq<Item>, next: seq<Item>)
    requires SameItems(items, next)
    ensures |items| == |next| && forall item :: item in items <==> item in next
  {
    assert |items| == |multiset(items)| && |next| == |multiset(next)|;
    assert forall item :: item in items <==> item in multiset(items);
    assert forall item :: item in next <==> item in multiset(next);
  }

  /** Items with the same key are the same item. */
  ghost predicate OneItemPerKey(keyOf: KeyOf, items: seq<Item>) {
    forall x, y | x in items && y in items && keyOf(x.path) == keyOf(y.path) :: x == y
  }

  function Swapped(items: seq<Item>, i: nat, j: nat): seq<Item>
    requires i < |items| && j < |items|
  {
    items[i := items[j]][j := items[i]]
  }

  lemma SwappingKeepsItems(items: seq<Item>, i: nat, j: nat)
    requires i < |items| && j < |items|
    ensures SameItems(items, Swapped(items, i, j))
  {
  }

  /** A new order agrees while items with the same key are the same. */
  lemma ReorderAgrees(keyOf: KeyOf, items: seq<Item>, next: seq<Item>, lookup: map<string, Item>)
    requires Agrees(keyOf, items, lookup) && OneItemPerKey(keyOf, items) && SameItems(items, next)
    ensures Agrees(keyOf, next, lookup)
  {
    SameMembers(items, next);
    forall key ensures Looked(lookup, key) == Found(keyOf, next, key) {
      assert Looked(lookup, key) == Found(keyOf, items, key);
      var f, g := Scan(keyOf, items, key), Scan(keyOf, next, key);
      if f.Some? {
        assert items[f.value] in next;
        assert g.Some?;
      }
      if g.Some? {
        assert next[g.value] in items;
      }
    }
  }

  /** Every order of the items agrees with the same map exactly when no two different items have the same key. */
  lemma EveryOrderAgrees(keyOf: KeyOf, items: seq<Item>, lookup: map<string, Item>)
    requires Agrees(keyOf, items, lookup)
    ensures (forall next | SameItems(items, next) :: Agrees(keyOf, next, lookup)) <==> OneItemPerKey(keyOf, items)
  {
    if OneItemPerKey(keyOf, items) {
      forall next | SameItems(items, next) ensures Agrees(keyOf, next, lookup) {
        ReorderAgrees(keyOf, items, next, lookup);
      }
    }
    if x, y :| x in items && y in items && keyOf(x.path) == keyOf(y.path) && x != y {
      var i :| 0 <= i < |items| && items[i] == x;
      var j :| 0 <= j < |items| && items[j] == y;
      BroughtToFront(keyOf, items, i);
      BroughtToFront(keyOf, items, j);
      var key := keyOf(x.path);
      assert Looked(lookup, key) != Some(x) || Looked(lookup, key) != Some(y);
    }
  }

  /** In some order the item is the one that a scan for its key finds. */
  lemma BroughtToFront(keyOf: KeyOf, items: seq<Item>, i: nat)
    requires i < |items|
    ensures SameItems(items, Swapped(items, 0, i))
    ensures Found(keyOf, Swapped(items, 0, i), keyOf(items[i].path)) == Some(items[i])
  {
    SwappingKeepsItems(items, 0, i);
    ScanIs(keyOf, Swapped(items, 0, i), keyOf(items[i].path), 0);
  }

  class FileItemList {
    const withoutOptions: KeyOf // a path without its URL options
    var self: Item // the list as an item
    var items: seq<Item>
    var presentation: Presentation
    var lookup: map<string, Item>
    var fastLookup: bool
    var ignoreURLOptions: bool

    constructor (withoutOptions: KeyOf, self: Item)
      ensures Valid() && this.self == self && presentation == PLAIN && items == []
      ensures !fastLookup && !ignoreURLOptions && this.withoutOptions == withoutOptions
    {
      this.self, presentation := self, PLAIN;
      this.withoutOptions, items, lookup, fastLookup, ignoreURLOptions := withoutOptions, [], map[], false, false;
    }

    function KeyFunction(): KeyOf
      reads this
    {
      if ignoreURLOptions then withoutOptions else (path: string) => path
    }

    function Key(path: string): string
      reads this
    {
      KeyFunction()(path)
    }

    ghost predicate Valid()
      reads this
    {
      if fastLookup then Agrees(KeyFunction(), items, lookup) else lookup == map[]
    }

    /** The question is about this item: by its path, which loses its options only in the map,
        and only when these are to be ignored. */
    ghost predicate IsAsked(item: Item, path: string)
      reads this
    {
      var asked := if ignoreURLOptions then withoutOptions(path) else path;
      if fastLookup && ignoreURLOptions then withoutOptions(item.path) == asked else item.path == asked
    }

    lemma FoundIsAsked(path: string)
      ensures var found := Found(if fastLookup then KeyFunction() else (p: string) => p, items, Key(path));
              && (found.None? <==> forall i | 0 <= i < |items| :: !IsAsked(items[i], path))
              && (found.Some? ==> exists i :: 0 <= i < |items| && items[i] == found.value && IsAsked(items[i], path)
                                              && forall j | 0 <= j < i :: !IsAsked(items[j], path))
    {
      var keyOf: KeyOf := if fastLookup then KeyFunction() else (p: string) => p;
      var i := Scan(keyOf, items, Key(path));
      forall k | 0 <= k < |items| ensures keyOf(items[k].path) == Key(path) <==> IsAsked(items[k], path) {
      }
      if i.Some? {
        assert items[i.value] == Found(keyOf, items, Key(path)).value && IsAsked(items[i.value], path);
      }
    }

    method Contains(fileName: string) returns (r: bool)
      requires Valid()
      ensures fastLookup ==> (r <==> Found(KeyFunction(), items, Key(fileName)).Some?)
      ensures !fastLookup ==> (r <==> Found(path => path, items, Key(fileName)).Some?)
      ensures r <==> exists i :: 0 <= i < |items| && IsAsked(items[i], fileName)
    {
      FoundIsAsked(fileName);
      if fastLookup {
        assert Looked(lookup, Key(fileName)) == Found(KeyFunction(), items, Key(fileName));
        return Key(fileName) in lookup;
      }
      var i := ScanPaths(Key(fileName));
      r := i.Some?;
    }

    /** The slow way: the first item with exactly the given path. */
    method ScanPaths(path: string) returns (r: Option<nat>)
      ensures r == Scan(p => p, items, path)
    {
      var same: KeyOf := p => p;
      var i := 0;
      while i < |items|
        invariant 0 <= i <= |items|
        invariant forall k | 0 <= k < i :: items[k].path != path
      {
        if items[i].path == path {
          ScanIs(p => p, items, path, i);
          return Some(i);
        }
        i := i + 1;
      }
      ScanIsNone(p => p, items, path);
      r := None;
    }

    method Get(path: string) returns (r: Option<Item>)
      requires Valid()
      ensures fastLookup ==> r == Found(KeyFunction(), items, Key(path))
      ensures !fastLookup ==> r == Found(p => p, items, Key(path))
      ensures r.None? <==> forall i | 0 <= i < |items| :: !IsAsked(items[i], path)
      ensures r.Some? ==> exists i :: 0 <= i < |items| && items[i] == r.value && IsAsked(items[i], path)
                                      && forall j | 0 <= j < i :: !IsAsked(items[j], path)
    {
      FoundIsAsked(path);
      if fastLookup {
        assert Looked(lookup, Key(path)) == Found(KeyFunction(), items, Key(path));
        if Key(path) in lookup {
          return Some(lookup[Key(path)]);
        }
        return None;
      }
      var i := ScanPaths(Key(path));
      r := if i.Some? then Some(items[i.value]) else None;
    }

    method Add(item: Item)
      requires Valid()
      modifies `items, `lookup
      ensures Valid() && items == old(items) + [item]
    {
      if fastLookup {
        AddAgrees(KeyFunction(), items, lookup, item);
        lookup := Inserted(lookup, Key(item.path), item);
      }
      items := items + [item];
    }

    /** A negative position counts from the end. */
    method AddFront(item: Item, itemPosition: int)
      requires Valid() && -|items| <= itemPosition <= |items|
      modifies `items, `lookup
      ensures var i := if itemPosition >= 0 then itemPosition else |old(items)| + itemPosition;
              && items == InsertedAt(old(items), i, item)
              && (Valid() <==> !fastLookup || MayGoAt(KeyFunction(), old(items), i, item))
    {
      var i := if itemPosition >= 0 then itemPosition else |items| + itemPosition;
      if fastLookup {
        InsertAgrees(KeyFunction(), items, lookup, i, item);
        lookup := Inserted(lookup, Key(item.path), item);
      }
      items := InsertedAt(items, i, item);
    }

    /** Removes the item itself, wherever it is. */
    method RemoveItem(item: Item)
      requires Valid()
      modifies `items, `lookup
      ensures if i :| 0 <= i < |old(items)| && old(items)[i] == item && item !in old(items)[..i]
              then
                && items == Without(old(items), i)
                && (Valid() <==> !fastLookup || AloneWithKey(KeyFunction(), old(items), i))
              else items == old(items) && Valid()
    {
      var i := 0;
      while i < |items|
        invariant 0 <= i <= |items|
        invariant item !in items[..i]
      {
        if items[i] == item {
          RemoveAt(i);
          return;
        }
        i := i + 1;
      }
    }

    method RemoveAt(i: int)
      requires Valid()
      modifies `items, `lookup
      ensures items == if 0 <= i < |old(items)| then Without(old(items), i) else old(items)
      ensures Valid() <==> !fastLookup || !(0 <= i < |old(items)|) || AloneWithKey(KeyFunction(), old(items), i)
    {
      if 0 <= i < |items| {
        if fastLookup {
          RemoveAgrees(KeyFunction(), items, lookup, i);
          lookup := lookup - {Key(items[i].path)};
        }
        items := Without(items, i);
      }
    }

    method Swap(i: nat, j: nat)
      requires Valid()
      modifies `items
      ensures items == if i < |old(items)| && j < |old(items)| then Swapped(old(items), i, j) else old(items)
      ensures !fastLookup || OneItemPerKey(KeyFunction(), old(items)) ==> Valid()
    {
      if i != j && i < |items| && j < |items| {
        SwappingKeepsItems(items, i, j);
        Reorder(Swapped(items, i, j));
      }
    }

    /** Any other order of the same items: sorting or shuffling. */
    method Reorder(next: seq<Item>)
      requires Valid() && SameItems(items, next)
      modifies `items
      ensures items == next
      ensures !fastLookup || OneItemPerKey(KeyFunction(), old(items)) ==> Valid()
    {
      if fastLookup && OneItemPerKey(KeyFunction(), items) {
        ReorderAgrees(KeyFunction(), items, next, lookup);
      }
      items := next;
    }

    method Clear()
      requires Valid()
      modifies `items, `lookup, `presentation
      ensures Valid() && items == [] && presentation == PLAIN
    {
      items, lookup, presentation := [], map[], PLAIN;
    }

    method SetFastLookup(fast: bool)
      requires fastLookup == fast ==> Valid()
      modifies `lookup, `fastLookup
      ensures Valid() && fastLookup == fast
    {
      if fast && !fastLookup {
        lookup := map[];
        var i := 0;
        while i < |items|
          invariant 0 <= i <= |items|
          invariant Agrees(KeyFunction(), items[..i], lookup)
        {
          AddAgrees(KeyFunction(), items[..i], lookup, items[i]);
          assert items[..i + 1] == items[..i] + [items[i]];
          lookup := Inserted(lookup, Key(items[i].path), items[i]);
          i := i + 1;
        }
        assert items[..i] == items;
      }
      if !fast && fastLookup {
        lookup := map[];
      }
      fastLookup := fast;
    }

    method SetIgnoreURLOptions(ignore: bool)
      requires Valid()
      modifies `lookup, `fastLookup, `ignoreURLOptions
      ensures Valid() && ignoreURLOptions == ignore && fastLookup == old(fastLookup)
    {
      ignoreURLOptions := ignore;
      if fastLookup {
        fastLookup := false; // forces the map to be made anew
        SetFastLookup(true);
      }
    }
  }

  /** With URL options ignored, the slow way compares whole paths where the fast
      way compares keys. They agree on every question exactly when the path of each
      item that is the first with its key carries no options. */
  lemma SlowWayAgrees(keyOf: KeyOf, items: seq<Item>)
    requires forall path :: keyOf(keyOf(path)) == keyOf(path)
    ensures (forall name :: Found(path => path, items, keyOf(name)) == Found(keyOf, items, keyOf(name)))
            <==> forall i | 0 <= i < |items| :: IsFirst(keyOf, items, i) ==> keyOf(items[i].path) == items[i].path
  {
    if forall i | 0 <= i < |items| :: IsFirst(keyOf, items, i) ==> keyOf(items[i].path) == items[i].path {
      forall name ensures Found(path => path, items, keyOf(name)) == Found(keyOf, items, keyOf(name)) {
        var f := Scan(keyOf, items, keyOf(name));
        if f.Some? {
          assert IsFirst(keyOf, items, f.value);
          ScanIs(path => path, items, keyOf(name), f.value);
        } else {
          ScanIsNone(path => path, items, keyOf(name));
        }
      }
    }
    if i :| 0 <= i < |items| && IsFirst(keyOf, items, i) && keyOf(items[i].path) != items[i].path {
      var name := items[i].path;
      var slow := Scan(path => path, items, keyOf(name));
      assert slow.Some? ==> items[slow.value].path == keyOf(name) != items[i].path;
      assert Found(path => path, items, keyOf(name)) != Found(keyOf, items, keyOf(name));
    }
  }

  ghost predicate IsFirst(keyOf: KeyOf, items: seq<Item>, i: nat)
    requires i < |items|
  {
    Scan(keyOf, items, keyOf(items[i].path)) == Some(i)
  }
}
