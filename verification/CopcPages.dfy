/** Reading the pages of a COPC hierarchy: a walk over bytes that may name pages in any order, even in cycles. */
module CopcPages {

  import opened Seqs
  import opened Bytes

  const ENTRY_SIZE := 32

  datatype Entry = Entry(level: int, x: int, y: int, z: int, pointCount: int, offset: nat, byteSize: int) {
    predicate IsValid()
    {
      && level >= 0 && pointCount >= -1 && byteSize >= 0
      && ((pointCount == 0 && offset == 0 && byteSize == 0) || (pointCount != 0 && offset > 0 && byteSize > 0))
    }

    predicate IsHierarchyPage() { pointCount == -1 }

    predicate IsPointData() { pointCount > 0 }
  }

  function EntryAt(bytes: seq<byte>, at: nat): Entry
    requires at + ENTRY_SIZE <= |bytes|
  {
    Entry(SignedAt(bytes, at, 4), SignedAt(bytes, at + 4, 4), SignedAt(bytes, at + 8, 4), SignedAt(bytes, at + 12, 4),
          SignedAt(bytes, at + 28, 4), UnsignedAt(bytes, at + 16, 8), SignedAt(bytes, at + 24, 4))
  }

  /** What the walk needs of the file header; `otherwiseValid` stands for the checks on its other fields. */
  datatype Header = Header(fileSize: nat, rootOffset: nat, rootSize: nat, pointCount: nat, otherwiseValid: bool) {
    predicate InFile(offset: nat, size: nat)
    {
      offset <= fileSize && size <= fileSize - offset
    }

    predicate IsValid()
    {
      && otherwiseValid && fileSize > 0 && rootOffset > 0 && rootSize > 0
      && rootSize % ENTRY_SIZE == 0 && InFile(rootOffset, rootSize)
    }
  }

  // ----- What a complete walk looks like

  /** One entry of a page; an entry that names a page comes with that page. */
  datatype Item = Plain(entry: Entry) | Link(entry: Entry, page: Page)

  datatype Page = Page(offset: nat, size: nat, items: seq<Item>)

  /** The entries in the order of the walk. */
  function Entries(items: seq<Item>): seq<Entry>
    decreases items
  {
    if items == [] then [] else Entries(items[..|items| - 1]) + ItemEntries(items[|items| - 1])
  }

  function ItemEntries(item: Item): seq<Entry>
    decreases item
  {
    [item.entry] + if item.Link? then Entries(item.page.items) else []
  }

  /** The offsets of the pages named below, in the order of the walk. */
  function Offsets(items: seq<Item>): seq<nat>
    decreases items
  {
    if items == [] then [] else Offsets(items[..|items| - 1]) + ItemOffsets(items[|items| - 1])
  }

  function ItemOffsets(item: Item): seq<nat>
    decreases item
  {
    if item.Link? then [item.page.offset] + Offsets(item.page.items) else []
  }

  function PointTotal(entries: seq<Entry>): nat
  {
    if entries == [] then 0
    else
      var last := entries[|entries| - 1];
      PointTotal(entries[..|entries| - 1]) + if last.IsPointData() then last.pointCount else 0
  }

  /** The item is what the bytes at `at` say, and it passes every check on an entry. */
  predicate ItemMatches(bytes: seq<byte>, h: Header, at: nat, item: Item)
    requires at + ENTRY_SIZE <= |bytes|
    decreases item
  {
    && item.entry == EntryAt(bytes, at) && item.entry.IsValid()
    && (item.Link? <==> item.entry.IsHierarchyPage())
    && (item.entry.IsPointData() ==> h.InFile(item.entry.offset, item.entry.byteSize))
    && (item.Link? ==>
          item.page.offset == item.entry.offset && item.page.size == item.entry.byteSize && PageMatches(bytes, h, item.page))
  }

  predicate ItemsMatch(bytes: seq<byte>, h: Header, at: nat, items: seq<Item>)
    requires at + ENTRY_SIZE * |items| <= |bytes|
    decreases items
  {
    items == [] ||
    (var m := |items| - 1;
     ItemsMatch(bytes, h, at, items[..m]) && ItemMatches(bytes, h, at + ENTRY_SIZE * m, items[m]))
  }

  /** The page and all pages it names lie in the file and consist of acceptable entries. */
  predicate PageMatches(bytes: seq<byte>, h: Header, page: Page)
    decreases page
  {
    && PageRangeOk(bytes, h, page.offset, page.size)
    && ENTRY_SIZE * |page.items| == page.size
    && ItemsMatch(bytes, h, page.offset, page.items)
  }

  predicate PageRangeOk(bytes: seq<byte>, h: Header, offset: nat, size: nat)
  {
    size != 0 && size % ENTRY_SIZE == 0 && h.InFile(offset, size) && offset + size <= |bytes|
  }

  /** The page can be walked to its end with the pages in `visited` already read and `total` points counted:
      no page is met twice, and the points stay within the header's count. */
  ghost predicate Walkable(bytes: seq<byte>, h: Header, page: Page, visited: set<nat>, total: nat)
  {
    && PageMatches(bytes, h, page)
    && Distinct([page.offset] + Offsets(page.items))
    && page.offset !in visited && (forall o :: o in Offsets(page.items) ==> o !in visited)
    && total + PointTotal(Entries(page.items)) <= h.pointCount
  }

  // ----- Walks are determined by the bytes

  lemma {:induction false} ItemUnique(bytes: seq<byte>, h: Header, at: nat, a: Item, b: Item)
    requires at + ENTRY_SIZE <= |bytes| && ItemMatches(bytes, h, at, a) && ItemMatches(bytes, h, at, b)
    ensures a == b
    decreases a
  {
    if a.Link? {
      ItemsUnique(bytes, h, a.page.offset, a.page.items, b.page.items);
    }
  }

  lemma {:induction false} ItemsUnique(bytes: seq<byte>, h: Header, at: nat, a: seq<Item>, b: seq<Item>)
    requires |a| == |b| && at + ENTRY_SIZE * |a| <= |bytes|
    requires ItemsMatch(bytes, h, at, a) && ItemsMatch(bytes, h, at, b)
    ensures a == b
    decreases a
  {
    if a != [] {
      var m := |a| - 1;
      ItemsUnique(bytes, h, at, a[..m], b[..m]);
      ItemUnique(bytes, h, at + ENTRY_SIZE * m, a[m], b[m]);
      assert a == a[..m] + [a[m]] && b == b[..m] + [b[m]];
    }
  }

  lemma {:induction false} ItemsPrefix(bytes: seq<byte>, h: Header, at: nat, items: seq<Item>, k: nat)
    requires at + ENTRY_SIZE * |items| <= |bytes| && ItemsMatch(bytes, h, at, items) && k < |items|
    ensures ItemsMatch(bytes, h, at, items[..k]) && ItemMatches(bytes, h, at + ENTRY_SIZE * k, items[k])
    decreases |items|
  {
    var m := |items| - 1;
    if k < m {
      ItemsPrefix(bytes, h, at, items[..m], k);
      assert items[..m][..k] == items[..k];
    }
  }

  lemma {:induction false} WalkPrefix(items: seq<Item>, k: nat)
    requires k <= |items|
    ensures Offsets(items[..k]) <= Offsets(items)
    ensures Entries(items[..k]) <= Entries(items)
    decreases |items|
  {
    if k < |items| {
      WalkPrefix(items[..|items| - 1], k);
      assert items[..|items| - 1][..k] == items[..k];
    } else {
      assert items[..k] == items;
    }
  }

  lemma {:induction false} PointTotalConcat(a: seq<Entry>, b: seq<Entry>)
    ensures PointTotal(a + b) == PointTotal(a) + PointTotal(b)
  {
    if b == [] {
      assert a + b == a;
    } else {
      var m := |b| - 1;
      PointTotalConcat(a, b[..m]);
      assert (a + b)[..|a + b| - 1] == a + b[..m];
    }
  }

  lemma PointTotalPrefix(a: seq<Entry>, b: seq<Entry>)
    requires a <= b
    ensures PointTotal(a) <= PointTotal(b)
  {
    assert b == a + b[|a|..];
    PointTotalConcat(a, b[|a|..]);
  }

  lemma PointTotalOne(e: Entry)
    ensures PointTotal([e]) == if e.IsPointData() then e.pointCount else 0
  {
    assert [e][..0] == [];
  }

  lemma WalkNext(items: seq<Item>, item: Item)
    ensures Offsets(items + [item]) == Offsets(items) + ItemOffsets(item)
    ensures Entries(items + [item]) == Entries(items) + ItemEntries(item)
    ensures PointTotal(Entries(items + [item])) == PointTotal(Entries(items)) + PointTotal(ItemEntries(item))
  {
    assert (items + [item])[..|items|] == items;
    PointTotalConcat(Entries(items), ItemEntries(item));
  }

  function ToSet(s: seq<nat>): set<nat> { set o | o in s }

  /** A walkable page goes on from every prefix of its items. */
  lemma WalkContinues(bytes: seq<byte>, h: Header, page: Page, visited: set<nat>, total: nat, items: seq<Item>)
    requires Walkable(bytes, h, page, visited, total)
    requires |items| < |page.items| && ItemsMatch(bytes, h, page.offset, items)
    ensures var k := |items|; var item := page.items[k];
      && page.items[..k] == items
      && ItemMatches(bytes, h, page.offset + ENTRY_SIZE * k, item)
      && total + PointTotal(Entries(items)) + PointTotal(ItemEntries(item)) <= h.pointCount
      && (item.Link? ==>
            Walkable(bytes, h, item.page, visited + {page.offset} + ToSet(Offsets(items)), total + PointTotal(Entries(items))))
  {
    hide ItemsMatch, ItemMatches, Entries, Offsets, PointTotal, Distinct;
    var k := |items|;
    var item := page.items[k];
    ItemsPrefix(bytes, h, page.offset, page.items, k);
    ItemsUnique(bytes, h, page.offset, page.items[..k], items);
    assert page.items[..k + 1] == items + [item];
    WalkNext(items, item);
    WalkPrefix(page.items, k + 1);
    PointTotalPrefix(Entries(page.items[..k + 1]), Entries(page.items));
    if item.Link? {
      PointTotalConcat([item.entry], Entries(item.page.items));
      SuffixWalkable(page.offset, Offsets(page.items), Offsets(items), [item.page.offset] + Offsets(item.page.items), visited);
    }
  }

  /** In a list without repeats, a middle part has none and avoids what comes before. */
  lemma SuffixWalkable(first: nat, all: seq<nat>, before: seq<nat>, part: seq<nat>, visited: set<nat>)
    requires before + part <= all && Distinct([first] + all)
    requires first !in visited && forall o :: o in all ==> o !in visited
    ensures Distinct(part)
    ensures forall o :: o in part ==> o !in visited + {first} + ToSet(before)
  {
    var whole := [first] + all;
    forall i | 0 <= i < |part| ensures whole[1 + |before| + i] == part[i] {
      assert (before + part)[|before| + i] == part[i];
    }
    forall i, j | 0 <= i < j < |part| ensures part[i] != part[j] {
      assert whole[1 + |before| + i] != whole[1 + |before| + j];
    }
    forall j, i | 0 <= j < |before| && 0 <= i < |part| ensures before[j] != part[i] {
      assert (before + part)[j] == before[j] == whole[1 + j];
      assert whole[1 + j] != whole[1 + |before| + i];
    }
    forall i | 0 <= i < |part| ensures first != part[i] && part[i] in all {
      assert whole[0] != whole[1 + |before| + i];
      assert all[|before| + i] == part[i];
    }
  }

  // ----- The reader

  ghost predicate IsWalk(bytes: seq<byte>, h: Header, page: Page, offset: nat, size: nat, visited: set<nat>, total: nat)
  {
    page.offset == offset && page.size == size && Walkable(bytes, h, page, visited, total)
  }

  /** The item can be taken with the pages in `visited` already read and `total` points counted. */
  ghost predicate Acceptable(bytes: seq<byte>, h: Header, at: nat, item: Item, visited: set<nat>, total: nat)
    requires at + ENTRY_SIZE <= |bytes|
  {
    && ItemMatches(bytes, h, at, item)
    && total + PointTotal(ItemEntries(item)) <= h.pointCount
    && (item.Link? ==> Walkable(bytes, h, item.page, visited, total))
  }

  /** The walk of a page stands after `items`. */
  ghost predicate Halfway(bytes: seq<byte>, h: Header, offset: nat, items: seq<Item>, visited: set<nat>, total: nat)
    requires offset + ENTRY_SIZE * |items| <= |bytes|
  {
    && ItemsMatch(bytes, h, offset, items)
    && Distinct([offset] + Offsets(items))
    && offset !in visited && (forall o :: o in Offsets(items) ==> o !in visited)
    && total + PointTotal(Entries(items)) <= h.pointCount
  }

  ghost predicate CanTake(bytes: seq<byte>, h: Header, at: nat, visited: set<nat>, total: nat)
    requires at + ENTRY_SIZE <= |bytes|
  {
    exists item :: Acceptable(bytes, h, at, item, visited, total)
  }

  lemma DistinctConcat(a: seq<nat>, b: seq<nat>)
    requires Distinct(a) && Distinct(b) && forall x :: x in b ==> x !in a
    ensures Distinct(a + b)
  {
    var ab := a + b;
    forall i, j | 0 <= i < j < |ab| ensures ab[i] != ab[j] {
      if i < |a| <= j {
        assert ab[i] in a && ab[j] in b;
      }
    }
  }

  lemma ItemsMatchNext(bytes: seq<byte>, h: Header, offset: nat, items: seq<Item>, item: Item)
    requires offset + ENTRY_SIZE * (|items| + 1) <= |bytes|
    requires ItemsMatch(bytes, h, offset, items) && ItemMatches(bytes, h, offset + ENTRY_SIZE * |items|, item)
    ensures ItemsMatch(bytes, h, offset, items + [item])
  {
    assert (items + [item])[..|items|] == items;
  }

  /** Taking one acceptable item more. */
  lemma HalfwayNext(bytes: seq<byte>, h: Header, offset: nat, items: seq<Item>, visited: set<nat>, total: nat, item: Item)
    requires offset + ENTRY_SIZE * (|items| + 1) <= |bytes|
    requires Halfway(bytes, h, offset, items, visited, total)
    requires Acceptable(bytes, h, offset + ENTRY_SIZE * |items|, item,
                        visited + {offset} + ToSet(Offsets(items)), total + PointTotal(Entries(items)))
    ensures Halfway(bytes, h, offset, items + [item], visited, total)
  {
    hide ItemMatches, ItemsMatch, Entries, Offsets, PointTotal, Distinct, PageMatches;
    WalkNext(items, item);
    ItemsMatchNext(bytes, h, offset, items, item);
    var a, b := [offset] + Offsets(items), ItemOffsets(item);
    assert [offset] + (Offsets(items) + b) == a + b;
    if item.Link? {
      forall x | x in b ensures x !in visited + {offset} + ToSet(Offsets(items)) {
      }
      DistinctConcat(a, b);
    } else {
      assert a + b == a;
    }
  }

  lemma AcceptableNext(bytes: seq<byte>, h: Header, page: Page, visited: set<nat>, total: nat, items: seq<Item>)
    requires Walkable(bytes, h, page, visited, total)
    requires |items| < |page.items| && ItemsMatch(bytes, h, page.offset, items)
    ensures Acceptable(bytes, h, page.offset + ENTRY_SIZE * |items|, page.items[|items|],
                       visited + {page.offset} + ToSet(Offsets(items)), total + PointTotal(Entries(items)))
  {
    hide ItemMatches, ItemsMatch, Walkable, Entries, Offsets, PointTotal, ItemEntries, ToSet;
    WalkContinues(bytes, h, page, visited, total, items);
  }

  /** A walkable page offers an acceptable item at every step. */
  lemma ItemHasRoom(bytes: seq<byte>, h: Header, page: Page, visited: set<nat>, total: nat, k: nat)
    requires Walkable(bytes, h, page, visited, total) && k < |page.items|
    ensures page.offset + ENTRY_SIZE * k + ENTRY_SIZE <= |bytes|
  {
    hide ItemMatches, ItemsMatch, Offsets, PointTotal, Entries;
  }

  lemma WalkOffers(bytes: seq<byte>, h: Header, page: Page, visited: set<nat>, total: nat, items: seq<Item>)
    requires Walkable(bytes, h, page, visited, total)
    requires |items| < |page.items| && ItemsMatch(bytes, h, page.offset, items)
    ensures CanTake(bytes, h, page.offset + ENTRY_SIZE * |items|,
                    visited + {page.offset} + ToSet(Offsets(items)), total + PointTotal(Entries(items)))
  {
    hide ItemMatches, ItemsMatch, Walkable, Entries, Offsets, PointTotal, ItemEntries, ToSet, PageMatches, Acceptable;
    ItemHasRoom(bytes, h, page, visited, total, |items|);
    AcceptableNext(bytes, h, page, visited, total, items);
    assert Acceptable(bytes, h, page.offset + ENTRY_SIZE * |items|, page.items[|items|],
                      visited + {page.offset} + ToSet(Offsets(items)), total + PointTotal(Entries(items)));
  }

  /** An entry that names a page can be taken exactly when that page can be walked. */
  lemma LinkAcceptable(bytes: seq<byte>, h: Header, at: nat, e: Entry, page: Page, visited: set<nat>, total: nat)
    requires at + ENTRY_SIZE <= |bytes| && e == EntryAt(bytes, at) && e.IsValid() && e.IsHierarchyPage()
    requires IsWalk(bytes, h, page, e.offset, e.byteSize, visited, total)
    ensures Acceptable(bytes, h, at, Link(e, page), visited, total)
    ensures PointTotal(ItemEntries(Link(e, page))) == PointTotal(Entries(page.items))
  {
    hide EntryAt, PageMatches, Entries, Offsets, PointTotal, Distinct;
    PointTotalConcat([e], Entries(page.items));
    PointTotalOne(e);
  }

  lemma LinkNeedsWalk(bytes: seq<byte>, h: Header, at: nat, e: Entry, visited: set<nat>, total: nat)
    requires at + ENTRY_SIZE <= |bytes| && e == EntryAt(bytes, at) && e.IsValid() && e.IsHierarchyPage()
    ensures CanTake(bytes, h, at, visited, total) ==> exists p :: IsWalk(bytes, h, p, e.offset, e.byteSize, visited, total)
  {
    hide EntryAt, PageMatches, Entries, Offsets, PointTotal, Distinct, ItemEntries;
    if item :| Acceptable(bytes, h, at, item, visited, total) {
      assert IsWalk(bytes, h, item.page, e.offset, e.byteSize, visited, total);
    }
  }

  /** An entry that names no page can be taken exactly when it passes its own checks. */
  lemma PlainAcceptable(bytes: seq<byte>, h: Header, at: nat, visited: set<nat>, total: nat)
    requires at + ENTRY_SIZE <= |bytes| && !EntryAt(bytes, at).IsHierarchyPage()
    ensures var e := EntryAt(bytes, at);
      var ok := e.IsValid()
        && (e.IsPointData() ==> h.InFile(e.offset, e.byteSize) && total + e.pointCount <= h.pointCount)
        && total <= h.pointCount;
      && (ok ==> Acceptable(bytes, h, at, Plain(e), visited, total))
      && (CanTake(bytes, h, at, visited, total) ==> ok)
      && PointTotal(ItemEntries(Plain(e))) == (if e.IsPointData() then e.pointCount else 0)
  {
    hide EntryAt, PageMatches, Entries, Offsets, PointTotal, Distinct;
    var e := EntryAt(bytes, at);
    PointTotalOne(e);
    assert [e] + [] == [e];
  }

  /** Page offsets lie in the file, so there are at most as many as the file has bytes. */
  lemma {:induction false} OffsetsFit(s: set<nat>, n: nat)
    requires forall o :: o in s ==> o < n
    ensures |s| <= n
  {
    if n > 0 {
      OffsetsFit(s - {n - 1}, n - 1);
      assert s <= (s - {n - 1}) + {n - 1};
      if n - 1 in s {
        assert |s - {n - 1}| == |s| - 1;
      } else {
        assert s - {n - 1} == s;
      }
    } else {
      assert s == {};
    }
  }

  class CopcReader {
    const bytes: seq<byte>
    const header: Header
    var visitedPages: set<nat>
    var totalPointCount: nat
    var entries: seq<Entry>

    constructor (bytes: seq<byte>, header: Header)
      ensures this.bytes == bytes && this.header == header
      ensures visitedPages == {} && totalPointCount == 0 && entries == []
    {
      this.bytes, this.header := bytes, header;
      visitedPages, totalPointCount, entries := {}, 0, [];
    }

    ghost predicate Valid()
      reads this
    {
      && (forall o :: o in visitedPages ==> o < header.fileSize)
      && totalPointCount <= header.pointCount
    }

    /** Reads a page and the pages it names. It terminates on every file content, because each page it reads
        is at a new offset inside the file, and it succeeds exactly when the page is walkable; then it has
        taken over the walk's pages, points and entries. */
    method ReadPage(offset: nat, size: nat) returns (ok: bool, ghost page: Page)
      requires Valid()
      modifies this
      ensures Valid()
      ensures ok ==> IsWalk(bytes, header, page, offset, size, old(visitedPages), old(totalPointCount))
      ensures ok ==> visitedPages == old(visitedPages) + {offset} + ToSet(Offsets(page.items))
      ensures ok ==> totalPointCount == old(totalPointCount) + PointTotal(Entries(page.items))
      ensures ok ==> entries == old(entries) + Entries(page.items)
      ensures !ok ==> forall p :: !IsWalk(bytes, header, p, offset, size, old(visitedPages), old(totalPointCount))
      decreases header.fileSize - |visitedPages|, 0
    {
      hide ItemMatches, Entries, Offsets, PointTotal, EntryAt, ItemEntries, ItemOffsets;
      ghost var visited, total, before := visitedPages, totalPointCount, entries;
      page := Page(offset, size, []);
      if size == 0 || size % ENTRY_SIZE != 0 || !header.InFile(offset, size) {
        return false, page;
      }
      if offset in visitedPages {
        return false, page;
      }
      OffsetsFit(visitedPages + {offset}, header.fileSize);
      visitedPages := visitedPages + {offset};
      if offset + size > |bytes| {
        return false, page;
      }
      ghost var items: seq<Item> := [];
      WalkStart();
      var pageOffset := 0;
      while pageOffset < size
        invariant 0 <= pageOffset <= size && pageOffset == ENTRY_SIZE * |items|
        invariant Valid() && Halfway(bytes, header, offset, items, visited, total)
        invariant visitedPages == visited + {offset} + ToSet(Offsets(items))
        invariant totalPointCount == total + PointTotal(Entries(items))
        invariant entries == before + Entries(items)
      {
        forall p | IsWalk(bytes, header, p, offset, size, visited, total)
          ensures CanTake(bytes, header, offset + pageOffset, visitedPages, totalPointCount)
        {
          WalkOffers(bytes, header, p, visited, total, items);
        }
        OffsetsFit(visitedPages, header.fileSize);
        SetGrows(visited, offset, visitedPages);
        ghost var item;
        ok, item := TakeEntry(offset + pageOffset);
        if !ok {
          return false, page;
        }
        HalfwayNext(bytes, header, offset, items, visited, total, item);
        WalkNext(items, item);
        items := items + [item];
        pageOffset := pageOffset + ENTRY_SIZE;
      }
      page := Page(offset, size, items);
      ok := true;
    }

    /** Takes the entry at one place of a page, with the page it may name. */
    method TakeEntry(at: nat) returns (ok: bool, ghost item: Item)
      requires Valid() && at + ENTRY_SIZE <= |bytes|
      modifies this
      ensures Valid()
      ensures ok ==> Acceptable(bytes, header, at, item, old(visitedPages), old(totalPointCount))
      ensures ok ==> visitedPages == old(visitedPages) + ToSet(ItemOffsets(item))
      ensures ok ==> totalPointCount == old(totalPointCount) + PointTotal(ItemEntries(item))
      ensures ok ==> entries == old(entries) + ItemEntries(item)
      ensures !ok ==> !CanTake(bytes, header, at, old(visitedPages), old(totalPointCount))
      decreases header.fileSize - |visitedPages|, 1
    {
      hide Entries, Offsets, PointTotal, EntryAt, PageMatches, ItemMatches, Acceptable, CanTake;
      var entry := EntryAt(bytes, at);
      item := Plain(entry);
      if !entry.IsValid() {
        InvalidRefused(bytes, header, at, visitedPages, totalPointCount);
        return false, item;
      }
      if entry.IsHierarchyPage() {
        if entry.byteSize % ENTRY_SIZE != 0 || !header.InFile(entry.offset, entry.byteSize) {
          PageRangesChecked(bytes, header);
          LinkNeedsWalk(bytes, header, at, entry, visitedPages, totalPointCount);
          return false, item;
        }
        entries := entries + [entry];
        ghost var page;
        ok, page := ReadPage(entry.offset, entry.byteSize);
        LinkNeedsWalk(bytes, header, at, entry, old(visitedPages), old(totalPointCount));
        if ok {
          LinkAcceptable(bytes, header, at, entry, page, old(visitedPages), old(totalPointCount));
        }
        item := Link(entry, page);
        assert old(entries) + [entry] + Entries(page.items) == old(entries) + ([entry] + Entries(page.items));
        return ok, item;
      }
      PlainAcceptable(bytes, header, at, visitedPages, totalPointCount);
      if entry.IsPointData() {
        if !header.InFile(entry.offset, entry.byteSize) {
          return false, item;
        }
        if entry.pointCount > header.pointCount - totalPointCount {
          return false, item;
        }
        totalPointCount := totalPointCount + entry.pointCount;
      }
      entries := entries + [entry];
      ok := true;
    }
  }

  lemma InvalidRefused(bytes: seq<byte>, h: Header, at: nat, visited: set<nat>, total: nat)
    requires at + ENTRY_SIZE <= |bytes| && !EntryAt(bytes, at).IsValid()
    ensures !CanTake(bytes, h, at, visited, total)
  {
    hide EntryAt, PageMatches;
  }

  lemma WalkStart()
    ensures Offsets([]) == [] && Entries([]) == [] && PointTotal([]) == 0
  {
  }

  lemma SetGrows(visited: set<nat>, offset: nat, now: set<nat>)
    requires offset !in visited && visited + {offset} <= now
    ensures |visited| < |now|
  {
    assert |visited + {offset}| == |visited| + 1;
    SubsetSize(visited + {offset}, now);
  }

  lemma PageRangesChecked(bytes: seq<byte>, h: Header)
    ensures forall p :: PageMatches(bytes, h, p) ==> PageRangeOk(bytes, h, p.offset, p.size)
  {
  }

  // ----- Reading the whole hierarchy

  /** The root page, with everything it names, is a walk that accounts for every point of the header. */
  ghost predicate IsHierarchy(bytes: seq<byte>, h: Header, root: Page)
  {
    && IsWalk(bytes, h, root, h.rootOffset, h.rootSize, {}, 0)
    && PointTotal(Entries(root.items)) == h.pointCount
  }

  /** Succeeds exactly when the file holds a complete hierarchy, and returns its entries in walk order. */
  method ReadHierarchy(bytes: seq<byte>, header: Header) returns (ok: bool, entries: seq<Entry>, ghost root: Page)
    ensures ok <==> header.IsValid() && exists page :: IsHierarchy(bytes, header, page)
    ensures ok ==> IsHierarchy(bytes, header, root) && entries == Entries(root.items)
    ensures !ok ==> entries == []
  {
    hide PageMatches, Entries, PointTotal, Offsets, Distinct;
    entries, root := [], Page(0, 0, []);
    if !header.IsValid() {
      return false, entries, root;
    }
    var reader := new CopcReader(bytes, header);
    ok, root := reader.ReadPage(header.rootOffset, header.rootSize);
    if !ok {
      return false, [], root;
    }
    assert [] + Entries(root.items) == Entries(root.items);
    forall page | IsHierarchy(bytes, header, page) ensures page == root {
      WalkUnique(bytes, header, page, root, {}, 0);
    }
    if reader.totalPointCount != header.pointCount {
      return false, [], root;
    }
    entries := reader.entries;
    assert IsHierarchy(bytes, header, root);
  }

  lemma WalkUnique(bytes: seq<byte>, h: Header, a: Page, b: Page, visited: set<nat>, total: nat)
    requires a.offset == b.offset && a.size == b.size
    requires Walkable(bytes, h, a, visited, total) && Walkable(bytes, h, b, visited, total)
    ensures a == b
  {
    ItemsUnique(bytes, h, a.offset, a.items, b.items);
  }

  /** Every entry of a complete hierarchy is valid, and every data range and page range lies in the file. */
  lemma {:induction false} WalkedEntriesInFile(bytes: seq<byte>, h: Header, at: nat, items: seq<Item>, e: Entry)
    requires at + ENTRY_SIZE * |items| <= |bytes| && ItemsMatch(bytes, h, at, items) && e in Entries(items)
    ensures e.IsValid() && (e.IsPointData() || e.IsHierarchyPage() ==> h.InFile(e.offset, e.byteSize))
    decreases items
  {
    var m := |items| - 1;
    if e in Entries(items[..m]) {
      WalkedEntriesInFile(bytes, h, at, items[..m], e);
    } else {
      ItemEntriesInFile(bytes, h, at + ENTRY_SIZE * m, items[m], e);
    }
  }

  lemma {:induction false} ItemEntriesInFile(bytes: seq<byte>, h: Header, at: nat, item: Item, e: Entry)
    requires at + ENTRY_SIZE <= |bytes| && ItemMatches(bytes, h, at, item) && e in ItemEntries(item)
    ensures e.IsValid() && (e.IsPointData() || e.IsHierarchyPage() ==> h.InFile(e.offset, e.byteSize))
    decreases item
  {
    if e != item.entry {
      WalkedEntriesInFile(bytes, h, item.page.offset, item.page.items, e);
    }
  }

  /** A walk meets at most as many pages as the file has bytes. */
  lemma WalkIsShort(bytes: seq<byte>, h: Header, page: Page, visited: set<nat>, total: nat)
    requires Walkable(bytes, h, page, visited, total)
    ensures |Offsets(page.items)| + 1 <= h.fileSize
  {
    hide ItemsMatch, Entries, PointTotal;
    var all := [page.offset] + Offsets(page.items);
    forall i | 0 <= i < |all| ensures all[i] < h.fileSize {
      if i > 0 {
        assert all[i] in Offsets(page.items);
        OffsetsInFile(bytes, h, page.offset, page.items, all[i]);
      }
    }
    DistinctSize(all);
    OffsetsFit(ToSet(all), h.fileSize);
  }

  lemma {:induction false} OffsetsInFile(bytes: seq<byte>, h: Header, at: nat, items: seq<Item>, o: nat)
    requires at + ENTRY_SIZE * |items| <= |bytes| && ItemsMatch(bytes, h, at, items) && o in Offsets(items)
    ensures o < h.fileSize
    decreases items
  {
    var m := |items| - 1;
    if o in Offsets(items[..m]) {
      OffsetsInFile(bytes, h, at, items[..m], o);
    } else {
      ItemOffsetsInFile(bytes, h, at + ENTRY_SIZE * m, items[m], o);
    }
  }

  lemma {:induction false} ItemOffsetsInFile(bytes: seq<byte>, h: Header, at: nat, item: Item, o: nat)
    requires at + ENTRY_SIZE <= |bytes| && ItemMatches(bytes, h, at, item) && o in ItemOffsets(item)
    ensures o < h.fileSize
    decreases item
  {
    if o != item.page.offset {
      OffsetsInFile(bytes, h, item.page.offset, item.page.items, o);
    }
  }

  lemma {:induction false} DistinctSize(s: seq<nat>)
    requires Distinct(s)
    ensures |ToSet(s)| == |s|
  {
    if s != [] {
      var m := |s| - 1;
      DistinctSize(s[..m]);
      assert s[m] !in s[..m];
      assert ToSet(s) == ToSet(s[..m]) + {s[m]};
    }
  }
}
