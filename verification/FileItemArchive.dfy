/** Storing a file item list in an archive and reading it back: both directions
    of `CGUIListItem::Archive`, `CFileItem::Archive` and `CFileItemList::Archive`. */
module FileItemArchive {
  import opened Basics
  import opened FileItemLists

  /** The values in the order in which they were stored. */
  datatype Stream = End | Then(head: Token, tail: Stream)

  type Entries = map<string, Token>

  /** The order in which maps are walked. */
  type Walk = Entries -> seq<string>

  ghost predicate Walks(walk: Walk) {
    forall m: Entries :: Enumerates(walk(m), m)
  }

  ghost predicate Enumerates(order: seq<string>, m: Entries) {
    && (forall k :: k in order <==> k in m)
    && forall i, j | 0 <= i < j < |order| :: order[i] != order[j]
  }

  // ---- Storing: each function puts its values in front of `tail` ----

  function StoreEntries(order: seq<string>, m: Entries, tail: Stream): Stream
    requires forall i | 0 <= i < |order| :: order[i] in m
  {
    if order == [] then tail
    else Then(Text(order[0]), Then(m[order[0]], StoreEntries(order[1..], m, tail)))
  }

  function StoreMap(walk: Walk, m: Entries, tail: Stream): Stream
    requires Enumerates(walk(m), m)
  {
    Then(Number(|walk(m)|), StoreEntries(walk(m), m, tail))
  }

  function StoreTag(tag: Option<nat>, tail: Stream): Stream {
    match tag
    case Some(v) => Then(Number(1), Then(Opaque(v), tail))
    case None => Then(Number(0), tail)
  }

  function StoreTags(tags: Tags, tail: Stream): Stream {
    StoreTag(tags.music, StoreTag(tags.video, StoreTag(tags.rds, StoreTag(tags.picture, tail))))
  }

  /** The part that every list item has. */
  function StoreGuiItem(walk: Walk, f: Fields, tail: Stream): Stream
    requires Walks(walk)
  {
    Then(Flag(f.isFolder), Then(Text(f.label1), Then(Text(f.label2), Then(Text(f.sortLabel), Then(Text(f.icon),
    Then(Flag(f.selected), Then(Number(f.overlay),
      StoreMap(walk, f.properties, StoreMap(walk, f.art, StoreMap(walk, f.artFallbacks, tail))))))))))
  }

  function StoreFileFields(f: Fields, path: string, tail: Stream): Stream {
    Then(Flag(f.isParentFolder), Then(Flag(f.labelPreformatted), Then(Text(path), Then(Flag(f.isShareOrDrive),
    Then(Number(f.driveType), Then(Opaque(f.dateTime), Then(Number(f.size), Then(Text(f.dvdLabel), Then(Text(f.title),
    Then(Number(f.programCount), Then(Number(f.depth), Then(Number(f.startOffset), Then(Number(f.startPartNumber),
    Then(Number(f.endOffset), tail))))))))))))))
  }

  function StoreLockFields(f: Fields, tail: Stream): Stream {
    Then(Number(f.lockMode), Then(Text(f.lockCode), Then(Number(f.badPwdCount), Then(Flag(f.canQueue),
    Then(Text(f.mimeType), Then(Text(f.extraInfo), Then(Number(f.specialSort),
    Then(Flag(f.doContentLookup), tail))))))))
  }

  function StoreItem(walk: Walk, item: Item, tail: Stream): Stream
    requires Walks(walk)
  {
    StoreGuiItem(walk, item.fields,
                 StoreFileFields(item.fields, item.path,
                                 StoreLockFields(item.fields, StoreTags(item.fields.tags, tail))))
  }

  function StoreItems(walk: Walk, items: seq<Item>, tail: Stream): Stream
    requires Walks(walk)
  {
    if items == [] then tail else StoreItem(walk, items[0], StoreItems(walk, items[1..], tail))
  }

  function StoreSort(sort: SortDescription, tail: Stream): Stream {
    Then(Number(sort.key), Then(Number(sort.order), Then(Number(sort.attributes), tail)))
  }

  function StoreView(view: ViewSort, tail: Stream): Stream {
    StoreSort(view.sort, Then(Number(view.buttonLabel), Then(Text(view.labelFile), Then(Text(view.labelFolder),
                         Then(Text(view.label2File), Then(Text(view.label2Folder), tail))))))
  }

  function StoreViews(views: seq<ViewSort>, tail: Stream): Stream {
    if views == [] then tail else StoreView(views[0], StoreViews(views[1..], tail))
  }

  function StorePresentation(p: Presentation, tail: Stream): Stream {
    StoreSort(p.sort, Then(Flag(p.ignoreFolders), Then(Number(p.cacheToDisc),
              Then(Number(|p.views|), StoreViews(p.views, Then(Text(p.content), tail))))))
  }

  /** A list as it is stored; a leading parent folder is left out. */
  datatype Listing = Listing(self: Item, items: seq<Item>, ignoreURLOptions: bool, fastLookup: bool,
                             presentation: Presentation)

  function EntriesOf(items: seq<Item>): seq<Item> {
    if items != [] && items[0].fields.isParentFolder then items[1..] else items
  }

  function StoreBody(walk: Walk, list: Listing, tail: Stream): Stream
    requires Walks(walk)
  {
    Then(Flag(list.ignoreURLOptions), Then(Flag(list.fastLookup),
    StorePresentation(list.presentation, StoreItems(walk, EntriesOf(list.items), tail))))
  }

  function StoreList(walk: Walk, list: Listing, tail: Stream): Stream
    requires Walks(walk)
  {
    StoreItem(walk, list.self, Then(Number(|EntriesOf(list.items)|), StoreBody(walk, list, tail)))
  }

  // ---- Reading ----

  /** The map after the keys in `order` were read over `base`. */
  ghost function Merged(base: Entries, stored: Entries, order: seq<string>, replace: bool): Entries
    requires forall i | 0 <= i < |order| :: order[i] in stored
  {
    if order == [] then base
    else
      var last := |order| - 1;
      var m := Merged(base, stored, order[..last], replace);
      if replace || order[last] !in m then m[order[last] := stored[order[last]]] else m
  }

  lemma {:induction false} MergedSoFar(base: Entries, stored: Entries, order: seq<string>, replace: bool)
    requires forall i | 0 <= i < |order| :: order[i] in stored
    requires forall i, j | 0 <= i < j < |order| :: order[i] != order[j]
    ensures var m := Merged(base, stored, order, replace);
            forall k :: (k in m <==> k in base || k in order)
                        && (k in m ==> m[k] == if k in order && (replace || k !in base) then stored[k] else base[k])
  {
    if order != [] {
      var last := |order| - 1;
      MergedSoFar(base, stored, order[..last], replace);
      assert order == order[..last] + [order[last]];
      assert order[last] !in order[..last];
    }
  }

  /** One entry, from the stream into the map. */
  lemma EntryStep(base: Entries, stored: Entries, order: seq<string>, i: nat, tail: Stream, replace: bool)
    requires i < |order| && forall k | 0 <= k < |order| :: order[k] in stored
    ensures StoreEntries(order[i..], stored, tail)
            == Then(Text(order[i]), Then(stored[order[i]], StoreEntries(order[i + 1..], stored, tail)))
    ensures var m := Merged(base, stored, order[..i], replace);
            Merged(base, stored, order[..i + 1], replace)
            == if replace || order[i] !in m then m[order[i] := stored[order[i]]] else m
  {
    assert order[i..][1..] == order[i + 1..];
    assert order[..i + 1][..i] == order[..i];
  }

  lemma MergedAll(base: Entries, stored: Entries, order: seq<string>, replace: bool)
    requires Enumerates(order, stored)
    ensures Merged(base, stored, order, replace) == if replace then base + stored else stored + base
  {
    MergedSoFar(base, stored, order, replace);
  }

  class Reader {
    var rest: Stream

    constructor (rest: Stream)
      ensures this.rest == rest
    {
      this.rest := rest;
    }

    method GetNumber() returns (n: int)
      requires rest.Then? && rest.head.Number?
      modifies this
      ensures n == old(rest).head.n && rest == old(rest).tail
    {
      n := rest.head.n;
      rest := rest.tail;
    }

    method GetFlag() returns (b: bool)
      requires rest.Then? && rest.head.Flag?
      modifies this
      ensures b == old(rest).head.b && rest == old(rest).tail
    {
      b := rest.head.b;
      rest := rest.tail;
    }

    method GetText() returns (s: string)
      requires rest.Then? && rest.head.Text?
      modifies this
      ensures s == old(rest).head.s && rest == old(rest).tail
    {
      s := rest.head.s;
      rest := rest.tail;
    }

    method GetOpaque() returns (v: nat)
      requires rest.Then? && rest.head.Opaque?
      modifies this
      ensures v == old(rest).head.v && rest == old(rest).tail
    {
      v := rest.head.v;
      rest := rest.tail;
    }

    method GetAny() returns (t: Token)
      requires rest.Then?
      modifies this
      ensures t == old(rest).head && rest == old(rest).tail
    {
      t := rest.head;
      rest := rest.tail;
    }

    /** Properties that are read replace those that are there; art that is read does not. */
    method GetEntries(base: Entries, replace: bool, ghost walk: Walk, ghost stored: Entries,
                      ghost tail: Stream) returns (m: Entries)
      requires Enumerates(walk(stored), stored) && rest == StoreMap(walk, stored, tail)
      modifies this
      ensures rest == tail && m == if replace then base + stored else stored + base
    {
      ghost var order := walk(stored);
      m := base;
      var count := GetNumber();
      var i := 0;
      while i < count
        invariant 0 <= i <= count == |order|
        invariant rest == StoreEntries(order[i..], stored, tail)
        invariant m == Merged(base, stored, order[..i], replace)
      {
        EntryStep(base, stored, order, i, tail, replace);
        var key := GetText();
        var value := GetAny();
        if replace || key !in m {
          m := m[key := value];
        }
        i := i + 1;
      }
      assert order[..i] == order;
      MergedAll(base, stored, order, replace);
    }

    method GetTag(base: Option<nat>, ghost stored: Option<nat>, ghost tail: Stream) returns (tag: Option<nat>)
      requires rest == StoreTag(stored, tail)
      modifies this
      ensures rest == tail && tag == if stored.Some? then stored else base
    {
      tag := base;
      var kind := GetNumber();
      if kind == 1 {
        var v := GetOpaque();
        tag := Some(v);
      }
    }

    method GetGuiItem(f: Fields, ghost walk: Walk, ghost stored: Fields, ghost tail: Stream) returns (r: Fields)
      requires Walks(walk) && rest == StoreGuiItem(walk, stored, tail)
      modifies this
      ensures rest == tail
      ensures r == f.(isFolder := stored.isFolder, label1 := stored.label1, label2 := stored.label2,
                      sortLabel := stored.sortLabel, icon := stored.icon, selected := stored.selected,
                          overlay := stored.overlay,
                      properties := f.properties + stored.properties, art := stored.art + f.art,
                      artFallbacks := stored.artFallbacks + f.artFallbacks)
    {
      var isFolder := GetFlag();
      var label1 := GetText();
      var label2 := GetText();
      var sortLabel := GetText();
      var icon := GetText();
      var selected := GetFlag();
      var overlay := GetNumber();
      var properties := GetEntries(f.properties, true, walk, stored.properties,
                                   StoreMap(walk, stored.art, StoreMap(walk, stored.artFallbacks, tail)));
      var art := GetEntries(f.art, false, walk, stored.art, StoreMap(walk, stored.artFallbacks, tail));
      var artFallbacks := GetEntries(f.artFallbacks, false, walk, stored.artFallbacks, tail);
      r := f.(isFolder := isFolder, label1 := label1, label2 := label2, sortLabel := sortLabel, icon := icon,
              selected := selected, overlay := overlay, properties := properties, art := art,
                  artFallbacks := artFallbacks);
    }

    method GetFileFields(f: Fields, ghost stored: Fields, ghost storedPath: string, ghost tail: Stream)
      returns (r: Fields, path: string)
      requires rest == StoreFileFields(stored, storedPath, tail)
      modifies this
      ensures rest == tail && path == storedPath
      ensures r == f.(isParentFolder := stored.isParentFolder, labelPreformatted := stored.labelPreformatted,
                      isShareOrDrive := stored.isShareOrDrive, driveType := stored.driveType,
                          dateTime := stored.dateTime,
                      size := stored.size, dvdLabel := stored.dvdLabel, title := stored.title,
                      programCount := stored.programCount, depth := stored.depth, startOffset := stored.startOffset,
                      startPartNumber := stored.startPartNumber, endOffset := stored.endOffset)
    {
      var isParentFolder := GetFlag();
      var labelPreformatted := GetFlag();
      path := GetText();
      var isShareOrDrive := GetFlag();
      var driveType := GetNumber();
      var dateTime := GetOpaque();
      var size := GetNumber();
      var dvdLabel := GetText();
      var title := GetText();
      var programCount := GetNumber();
      var depth := GetNumber();
      var startOffset := GetNumber();
      var startPartNumber := GetNumber();
      var endOffset := GetNumber();
      r := f.(isParentFolder := isParentFolder, labelPreformatted := labelPreformatted,
              isShareOrDrive := isShareOrDrive,
              driveType := driveType, dateTime := dateTime, size := size, dvdLabel := dvdLabel, title := title,
              programCount := programCount, depth := depth, startOffset := startOffset,
              startPartNumber := startPartNumber, endOffset := endOffset);
    }

    method GetLockFields(f: Fields, ghost stored: Fields, ghost tail: Stream) returns (r: Fields)
      requires rest == StoreLockFields(stored, tail)
      modifies this
      ensures rest == tail
      ensures r == f.(lockMode := stored.lockMode, lockCode := stored.lockCode, badPwdCount := stored.badPwdCount,
                      canQueue := stored.canQueue, mimeType := stored.mimeType, extraInfo := stored.extraInfo,
                      specialSort := stored.specialSort, doContentLookup := stored.doContentLookup)
    {
      var lockMode := GetNumber();
      var lockCode := GetText();
      var badPwdCount := GetNumber();
      var canQueue := GetFlag();
      var mimeType := GetText();
      var extraInfo := GetText();
      var specialSort := GetNumber();
      var doContentLookup := GetFlag();
      r := f.(lockMode := lockMode, lockCode := lockCode, badPwdCount := badPwdCount, canQueue := canQueue,
              mimeType := mimeType, extraInfo := extraInfo, specialSort := specialSort,
                  doContentLookup := doContentLookup);
    }

    /** The radio tag has no object to be read into, so none may have been stored. */
    method GetTags(base: Tags, ghost stored: Tags, ghost tail: Stream) returns (tags: Tags)
      requires rest == StoreTags(stored, tail) && stored.rds.None?
      modifies this
      ensures rest == tail && tags == TagsOver(base, stored)
    {
      var music := GetTag(base.music, stored.music,
                          StoreTag(stored.video, StoreTag(stored.rds, StoreTag(stored.picture, tail))));
      var video := GetTag(base.video, stored.video, StoreTag(stored.rds, StoreTag(stored.picture, tail)));
      var kind := GetNumber();
      var picture := GetTag(base.picture, stored.picture, tail);
      tags := Tags(music, video, base.rds, picture);
    }

    /** Reads an item over `item`. */
    method GetItem(item: Item, ghost walk: Walk, ghost stored: Item, ghost tail: Stream) returns (r: Item)
      requires Walks(walk) && rest == StoreItem(walk, stored, tail) && stored.fields.tags.rds.None?
      modifies this
      ensures rest == tail && r == Overlaid(item, stored)
    {
      var f := GetGuiItem(item.fields, walk, stored.fields,
                          StoreFileFields(stored.fields, stored.path,
                                          StoreLockFields(stored.fields, StoreTags(stored.fields.tags, tail))));
      var path;
      f, path := GetFileFields(f, stored.fields, stored.path,
                               StoreLockFields(stored.fields, StoreTags(stored.fields.tags, tail)));
      f := GetLockFields(f, stored.fields, StoreTags(stored.fields.tags, tail));
      var tags := GetTags(item.fields.tags, stored.fields.tags, tail);
      r := Item(item.id, path, f.(tags := tags));
    }
  }

  function TagsOver(base: Tags, stored: Tags): Tags {
    Tags(if stored.music.Some? then stored.music else base.music,
         if stored.video.Some? then stored.video else base.video,
         base.rds,
         if stored.picture.Some? then stored.picture else base.picture)
  }

  /** An item after another one was read over it. */
  function Overlaid(item: Item, stored: Item): Item {
    Item(item.id, stored.path,
         stored.fields.(properties := item.fields.properties + stored.fields.properties,
                        art := stored.fields.art + item.fields.art,
                        artFallbacks := stored.fields.artFallbacks + item.fields.artFallbacks,
                        tags := TagsOver(item.fields.tags, stored.fields.tags)))
  }

  /** What was read wins over the properties and tags that the item has; its own art stays, and so
      does its radio tag. */
  lemma OverlaidMeans(item: Item, stored: Item, key: string)
    ensures var properties := Overlaid(item, stored).fields.properties;
            && (key in stored.fields.properties ==>
                  key in properties && properties[key] == stored.fields.properties[key])
            && (key !in stored.fields.properties && key in item.fields.properties ==>
                  key in properties && properties[key] == item.fields.properties[key])
    ensures var art := Overlaid(item, stored).fields.art;
            && (key in item.fields.art ==> key in art && art[key] == item.fields.art[key])
            && (key !in item.fields.art && key in stored.fields.art ==>
                  key in art && art[key] == stored.fields.art[key])
    ensures var tags := Overlaid(item, stored).fields.tags;
            && (stored.fields.tags.music.Some? ==> tags.music == stored.fields.tags.music)
            && (stored.fields.tags.video.Some? ==> tags.video == stored.fields.tags.video)
            && (stored.fields.tags.picture.Some? ==> tags.picture == stored.fields.tags.picture)
            && (stored.fields.tags == NO_TAGS ==> tags == item.fields.tags) && tags.rds == item.fields.tags.rds
    ensures Overlaid(item, stored).path == stored.path && Overlaid(item, stored).id == item.id
  {
  }

  /** Reading over an item that is empty gives back what was stored. */
  lemma FreshItemIsRestored(item: Item, stored: Item)
    requires item.fields.properties == map[] && item.fields.art == map[] && item.fields.artFallbacks == map[]
    requires item.fields.tags == NO_TAGS && stored.fields.tags.rds.None?
    ensures Overlaid(item, stored) == stored.(id := item.id)
  {
    assert map[] + stored.fields.properties == stored.fields.properties;
  }

  const NEW_FIELDS := Fields(false, "", "", "", "", false, 0, map[], map[], map[],
                             false, false, false, 0, 0, 0, "", "", 0, 0, 0, 0, 0, 0, "", 0, false, "", "", 0, false,
                                 NO_TAGS)

  /** No radio tag is among what was stored: there would be no object to read it into. */
  ghost predicate NoRadio(items: seq<Item>) {
    forall i | 0 <= i < |items| :: items[i].fields.tags.rds.None?
  }

  /** Values are equal but for the identity of the object. */
  predicate SameValue(a: Item, b: Item) {
    a.path == b.path && a.fields == b.fields
  }

  ghost predicate SameValues(a: seq<Item>, b: seq<Item>) {
    |a| == |b| && forall i | 0 <= i < |a| :: SameValue(a[i], b[i])
  }

  method GetSort(r: Reader, ghost stored: SortDescription, ghost tail: Stream) returns (sort: SortDescription)
    requires r.rest == StoreSort(stored, tail)
    modifies r
    ensures r.rest == tail && sort == stored
  {
    var key := r.GetNumber();
    var order := r.GetNumber();
    var attributes := r.GetNumber();
    sort := SortDescription(key, order, attributes);
  }

  method GetView(r: Reader, ghost stored: ViewSort, ghost tail: Stream) returns (view: ViewSort)
    requires r.rest == StoreView(stored, tail)
    modifies r
    ensures r.rest == tail && view == stored
  {
    var sort := GetSort(r, stored.sort, r.rest.tail.tail.tail);
    var buttonLabel := r.GetNumber();
    var labelFile := r.GetText();
    var labelFolder := r.GetText();
    var label2File := r.GetText();
    var label2Folder := r.GetText();
    view := ViewSort(sort, buttonLabel, labelFile, labelFolder, label2File, label2Folder);
  }

  method GetPresentation(r: Reader, ghost stored: Presentation, ghost tail: Stream) returns (p: Presentation)
    requires r.rest == StorePresentation(stored, tail)
    modifies r
    ensures r.rest == tail && p == stored
  {
    var sort := GetSort(r, stored.sort, r.rest.tail.tail.tail);
    var ignoreFolders := r.GetFlag();
    var cacheToDisc := r.GetNumber();
    var count := r.GetNumber();
    var views: seq<ViewSort> := [];
    ghost var after := Then(Text(stored.content), tail);
    var i := 0;
    while i < count
      invariant 0 <= i <= count == |stored.views|
      invariant r.rest == StoreViews(stored.views[i..], after)
      invariant views == stored.views[..i]
    {
      var view := GetView(r, stored.views[i], StoreViews(stored.views[i + 1..], after));
      views := views + [view];
      i := i + 1;
    }
    var content := r.GetText();
    p := Presentation(sort, ignoreFolders, cacheToDisc, views, content);
  }

  /** A copy of a leading parent folder is a new object. */
  function CopyOf(parent: seq<Item>, id: nat): (r: seq<Item>)
    ensures SameValues(parent, r)
  {
    seq(|parent|, i requires 0 <= i < |parent| => parent[i].(id := id))
  }

  /** Turns the lookup modes off and empties the list. */
  method Reset(list: FileItemList)
    requires list.Valid()
    modifies list
    ensures list.Valid() && list.items == [] && list.presentation == PLAIN && !list.fastLookup && !list.ignoreURLOptions
    ensures list.self == old(list.self)
  {
    list.SetIgnoreURLOptions(false);
    list.SetFastLookup(false);
    list.Clear();
  }

  /** The receiver's leading parent folder is in front with a new identity. */
  lemma BehindParent(was: seq<Item>, parent: seq<Item>, now: seq<Item>, entries: seq<Item>)
    requires SameValues(was, parent) && SameValues(now, parent + entries)
    ensures SameValues(now, was + entries)
  {
    forall i | 0 <= i < |now| ensures SameValue(now[i], (was + entries)[i]) {
      if i < |was| { assert SameValue(was[i], parent[i]); }
      assert SameValue(now[i], (parent + entries)[i]);
    }
  }

  /** The list as an item, and the number of entries. */
  method GetHead(r: Reader, list: FileItemList, ghost walk: Walk, ghost stored: Listing, ghost tail: Stream)
    returns (size: int)
    requires Walks(walk) && r.rest == StoreList(walk, stored, tail) && NoRadio([stored.self])
    modifies r, list`self
    ensures size == |EntriesOf(stored.items)| && r.rest == StoreBody(walk, stored, tail)
    ensures list.self == Overlaid(old(list.self), stored.self)
  {
    assert [stored.self][0].fields.tags.rds.None?;
    list.self := r.GetItem(list.self, walk, stored.self,
                           Then(Number(|EntriesOf(stored.items)|), StoreBody(walk, stored, tail)));
    size := r.GetNumber();
  }

  /** Reads a list over `list`. Objects that are made on the way get ids from `id` on. */
  method GetList(r: Reader, list: FileItemList, id: nat, ghost walk: Walk, ghost stored: Listing, ghost tail: Stream)
    requires list.Valid() && Walks(walk) && r.rest == StoreList(walk, stored, tail)
    requires NoRadio([stored.self]) && NoRadio(EntriesOf(stored.items))
    modifies r, list
    ensures list.Valid() && list.self == Overlaid(old(list.self), stored.self)
    // a list with nothing but a parent folder comes back bare: its flags and its presentation are
    // lost, and stay unread in front of whatever was stored after the list
    ensures EntriesOf(stored.items) == [] ==>
              && list.items == [] && list.presentation == PLAIN && !list.fastLookup && !list.ignoreURLOptions
              && r.rest == StoreBody(walk, stored, tail)
    // any other list comes back whole, behind the parent folder that the receiver had
    ensures EntriesOf(stored.items) != [] ==>
              && r.rest == tail && list.presentation == stored.presentation
              && list.fastLookup == stored.fastLookup && list.ignoreURLOptions == stored.ignoreURLOptions
              && SameValues(list.items, ParentOf(old(list.items)) + EntriesOf(stored.items))
              && (SameValues(ParentOf(old(list.items)), ParentOf(stored.items)) ==>
                    SameValues(list.items, stored.items))
  {
    ghost var before := list.items;
    var parent := CopyOf(ParentOf(list.items), id);
    Reset(list);
    var size := GetHead(r, list, walk, stored, tail);
    if size <= 0 {
      return;
    }
    list.items := parent;
    GetBody(r, list, size, id + 1, walk, stored, tail);
    BehindParent(ParentOf(before), parent, list.items, EntriesOf(stored.items));
    SameParentBringsAllBack(before, stored.items, list.items);
  }

  /** Everything after the number of entries. */
  method GetBody(r: Reader, list: FileItemList, size: int, id: nat, ghost walk: Walk, ghost stored: Listing,
                 ghost tail: Stream)
    requires list.Valid() && !list.fastLookup && Walks(walk) && r.rest == StoreBody(walk, stored, tail)
    requires size == |EntriesOf(stored.items)|
    requires NoRadio(EntriesOf(stored.items))
    modifies r, list
    ensures list.Valid() && list.self == old(list.self) && r.rest == tail && list.presentation == stored.presentation
    ensures list.fastLookup == stored.fastLookup && list.ignoreURLOptions == stored.ignoreURLOptions
    ensures SameValues(list.items, old(list.items) + EntriesOf(stored.items))
  {
    ghost var items := EntriesOf(stored.items);
    var ignoreURLOptions := r.GetFlag();
    var fastLookup := r.GetFlag();
    list.presentation := GetPresentation(r, stored.presentation, StoreItems(walk, items, tail));
    GetItems(r, list, size, id, walk, items, tail);
    list.SetIgnoreURLOptions(ignoreURLOptions);
    list.SetFastLookup(fastLookup);
  }

  /** The parent folder that leads a list, if one does. */
  function ParentOf(items: seq<Item>): seq<Item> {
    if items != [] && items[0].fields.isParentFolder then [items[0]] else []
  }

  /** A list is its leading parent folder, if it has one, and its entries behind it. */
  lemma ParentAndEntries(items: seq<Item>)
    ensures ParentOf(items) + EntriesOf(items) == items
    ensures |ParentOf(items)| <= 1 && forall item | item in ParentOf(items) :: item.fields.isParentFolder
    ensures ParentOf(items) == [] <==> items == [] || !items[0].fields.isParentFolder
  {
  }

  /** Over a receiver with the same leading parent folder, or none, the whole list comes back. */
  lemma SameParentBringsAllBack(before: seq<Item>, stored: seq<Item>, now: seq<Item>)
    requires SameValues(now, ParentOf(before) + EntriesOf(stored))
    ensures SameValues(ParentOf(before), ParentOf(stored)) ==> SameValues(now, stored)
  {
    ParentAndEntries(stored);
    if SameValues(ParentOf(before), ParentOf(stored)) {
      SameValuesBack(ParentOf(before), ParentOf(stored));
      BehindParent(ParentOf(stored), ParentOf(before), now, EntriesOf(stored));
    }
  }

  lemma SameValuesBack(a: seq<Item>, b: seq<Item>)
    ensures SameValues(a, b) <==> SameValues(b, a)
  {
  }

  /** Reads one entry into a new object and adds it. */
  method GetNewItem(r: Reader, list: FileItemList, id: nat, ghost walk: Walk, ghost stored: Item, ghost tail: Stream)
    requires list.Valid() && !list.fastLookup && Walks(walk)
    requires r.rest == StoreItem(walk, stored, tail) && NoRadio([stored])
    modifies r, list`items, list`lookup
    ensures list.Valid() && r.rest == tail && list.items == old(list.items) + [stored.(id := id)]
  {
    assert [stored][0].fields.tags.rds.None?;
    var item := r.GetItem(Item(id, "", NEW_FIELDS), walk, stored, tail);
    FreshItemIsRestored(Item(id, "", NEW_FIELDS), stored);
    list.Add(item);
  }

  lemma ItemStep(walk: Walk, items: seq<Item>, i: nat, tail: Stream, before: seq<Item>, now: seq<Item>, id: nat)
    requires Walks(walk) && i < |items| && SameValues(now, before + items[..i])
    ensures StoreItems(walk, items[i..], tail) == StoreItem(walk, items[i], StoreItems(walk, items[i + 1..], tail))
    ensures SameValues(now + [items[i].(id := id)], before + items[..i + 1])
  {
    assert items[i..][1..] == items[i + 1..];
    assert before + items[..i + 1] == before + items[..i] + [items[i]];
    forall k | 0 <= k < |now| ensures SameValue(now[k], (before + items[..i])[k]) {
    }
  }

  /** Reads the entries, one new object each. */
  method GetItems(r: Reader, list: FileItemList, count: int, id: nat, ghost walk: Walk, ghost stored: seq<Item>,
                  ghost tail: Stream)
    requires list.Valid() && !list.fastLookup && Walks(walk)
    requires count == |stored| && r.rest == StoreItems(walk, stored, tail)
    requires NoRadio(stored)
    modifies r, list`items, list`lookup
    ensures list.Valid() && r.rest == tail && SameValues(list.items, old(list.items) + stored)
  {
    ghost var before := list.items;
    assert before + stored[..0] == before;
    var i := 0;
    while i < count
      invariant 0 <= i <= count
      invariant list.Valid() && !list.fastLookup
      invariant r.rest == StoreItems(walk, stored[i..], tail)
      invariant SameValues(list.items, before + stored[..i])
    {
      ItemStep(walk, stored, i, tail, before, list.items, id + i);
      GetNewItem(r, list, id + i, walk, stored[i], StoreItems(walk, stored[i + 1..], tail));
      i := i + 1;
    }
    assert stored[..i] == stored;
  }
}
