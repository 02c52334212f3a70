/** The bytes of a COPC hierarchy as a writer lays them out, and that such files are read back. */
module CopcLayout {
  import opened Seqs
  import opened Bytes
  import opened CopcPages

  // ----- One entry

  /** The fields fit their places in the file. */
  predicate Fits(e: Entry)
  {
    && FitsSigned(e.level, 4) && FitsSigned(e.x, 4) && FitsSigned(e.y, 4) && FitsSigned(e.z, 4)
    && e.offset < Pow256(8) && FitsSigned(e.byteSize, 4) && FitsSigned(e.pointCount, 4)
  }

  /** The key, then the place of the data or page and its size, then the number of points. */
  function EntryBytes(e: Entry): (r: seq<byte>)
    requires Fits(e)
    ensures |r| == ENTRY_SIZE
  {
    Signed4(e.level) + Signed4(e.x) + Signed4(e.y) + Signed4(e.z) + ToBytes(e.offset, 8) + Signed4(e.byteSize) +
    Signed4(e.pointCount)
  }

  function Signed4(i: int): (r: seq<byte>)
    requires FitsSigned(i, 4)
    ensures |r| == 4
  {
    ToBytes(AsUnsignedWord(i, 4), 4)
  }

  lemma Signed4Read(bytes: seq<byte>, at: nat, i: int)
    requires at + 4 <= |bytes| && FitsSigned(i, 4) && bytes[at..at + 4] == Signed4(i)
    ensures SignedAt(bytes, at, 4) == i
  {
    SignedRoundTrip(i, 4);
    BytesRoundTrip(AsUnsignedWord(i, 4), 4);
  }

  lemma Signed4Written(bytes: seq<byte>, at: nat)
    requires at + 4 <= |bytes|
    ensures FitsSigned(SignedAt(bytes, at, 4), 4) && Signed4(SignedAt(bytes, at, 4)) == bytes[at..at + 4]
  {
    NumberRoundTrip(bytes[at..at + 4]);
    UnsignedRoundTrip(UnsignedAt(bytes, at, 4), 4);
  }

  /** The seven fields of 32 bytes. */
  lemma FieldsOf(bytes: seq<byte>, at: nat)
    requires at + ENTRY_SIZE <= |bytes|
    ensures bytes[at..at + 32] == bytes[at..at + 4] + bytes[at + 4..at + 8] + bytes[at + 8..at + 12] + bytes[at + 12..at + 16]
                                + bytes[at + 16..at + 24] + bytes[at + 24..at + 28] + bytes[at + 28..at + 32]
  {
  }

  lemma FieldsEqual(a: seq<byte>, b: seq<byte>)
    requires |a| == |b| == ENTRY_SIZE && a == b
    ensures a[0..4] == b[0..4] && a[4..8] == b[4..8] && a[8..12] == b[8..12] && a[12..16] == b[12..16]
    ensures a[16..24] == b[16..24] && a[24..28] == b[24..28] && a[28..32] == b[28..32]
  {
  }

  lemma EntryFields(e: Entry)
    requires Fits(e)
    ensures var r := EntryBytes(e);
      && r[0..4] == Signed4(e.level) && r[4..8] == Signed4(e.x) && r[8..12] == Signed4(e.y) && r[12..16] == Signed4(e.z)
      && r[16..24] == ToBytes(e.offset, 8) && r[24..28] == Signed4(e.byteSize) && r[28..32] == Signed4(e.pointCount)
  {
    hide Signed4, ToBytes;
  }

  /** An entry is at a place exactly when its bytes are there, and then its fields fit. */
  lemma EntryRoundTrip(bytes: seq<byte>, at: nat, e: Entry)
    requires at + ENTRY_SIZE <= |bytes|
    ensures EntryAt(bytes, at) == e <==> Fits(e) && bytes[at..at + ENTRY_SIZE] == EntryBytes(e)
  {
    hide Signed4, ToBytes, SignedAt, FromBytes, Pow256, EntryBytes;
    var there := bytes[at..at + ENTRY_SIZE];
    assert there[0..4] == bytes[at..at + 4] && there[4..8] == bytes[at + 4..at + 8] && there[8..12] == bytes[at + 8..at + 12];
    assert there[12..16] == bytes[at + 12..at + 16] && there[16..24] == bytes[at + 16..at + 24];
    assert there[24..28] == bytes[at + 24..at + 28] && there[28..32] == bytes[at + 28..at + 32];
    if Fits(e) && there == EntryBytes(e) {
      EntryFields(e);
      Signed4Read(bytes, at, e.level);
      Signed4Read(bytes, at + 4, e.x);
      Signed4Read(bytes, at + 8, e.y);
      Signed4Read(bytes, at + 12, e.z);
      BytesRoundTrip(e.offset, 8);
      Signed4Read(bytes, at + 24, e.byteSize);
      Signed4Read(bytes, at + 28, e.pointCount);
    }
    if EntryAt(bytes, at) == e {
      ReadFits(bytes, at);
      EntryFields(e);
      FieldsOf(bytes, at);
      FieldsOf(EntryBytes(e), 0);
      assert EntryBytes(e)[0..32] == EntryBytes(e);
    }
  }

  lemma ReadFits(bytes: seq<byte>, at: nat)
    requires at + ENTRY_SIZE <= |bytes|
    ensures var e := EntryAt(bytes, at);
      && Fits(e)
      && Signed4(e.level) == bytes[at..at + 4] && Signed4(e.x) == bytes[at + 4..at + 8]
      && Signed4(e.y) == bytes[at + 8..at + 12] && Signed4(e.z) == bytes[at + 12..at + 16]
      && ToBytes(e.offset, 8) == bytes[at + 16..at + 24] && Signed4(e.byteSize) == bytes[at + 24..at + 28]
      && Signed4(e.pointCount) == bytes[at + 28..at + 32]
  {
    hide Signed4, ToBytes, FromBytes, Pow256;
    Signed4Written(bytes, at);
    Signed4Written(bytes, at + 4);
    Signed4Written(bytes, at + 8);
    Signed4Written(bytes, at + 12);
    NumberRoundTrip(bytes[at + 16..at + 24]);
    Signed4Written(bytes, at + 24);
    Signed4Written(bytes, at + 28);
    hide SignedAt;
  }

  // ----- Pages

  predicate IsDataEntry(e: Entry) { e.level >= 0 && e.pointCount > 0 && e.offset > 0 && e.byteSize > 0 }

  predicate IsPageEntry(e: Entry) { e.level >= 0 && e.pointCount == -1 && e.offset > 0 && e.byteSize > 0 }

  predicate IsEmptyEntry(e: Entry) { e.level >= 0 && e.pointCount == 0 && e.offset == 0 && e.byteSize == 0 }

  /** The entry's bytes are there. It is empty, or its data lies in the file, or its page is laid out. */
  predicate ItemWritten(bytes: seq<byte>, fileSize: nat, at: nat, item: Item)
    requires at + ENTRY_SIZE <= |bytes|
    decreases item
  {
    && Fits(item.entry) && bytes[at..at + ENTRY_SIZE] == EntryBytes(item.entry)
    && match item
       case Plain(e) => IsEmptyEntry(e) || (IsDataEntry(e) && e.offset + e.byteSize <= fileSize)
       case Link(e, page) =>
         IsPageEntry(e) && page.offset == e.offset && page.size == e.byteSize && PageWritten(bytes, fileSize, page)
  }

  predicate ItemsWritten(bytes: seq<byte>, fileSize: nat, at: nat, items: seq<Item>)
    requires at + ENTRY_SIZE * |items| <= |bytes|
    decreases items
  {
    items == [] ||
    (var m := |items| - 1;
     ItemsWritten(bytes, fileSize, at, items[..m]) && ItemWritten(bytes, fileSize, at + ENTRY_SIZE * m, items[m]))
  }

  predicate PageWritten(bytes: seq<byte>, fileSize: nat, page: Page)
    decreases page
  {
    && page.items != [] && page.size == ENTRY_SIZE * |page.items|
    && page.offset + page.size <= fileSize && page.offset + page.size <= |bytes|
    && ItemsWritten(bytes, fileSize, page.offset, page.items)
  }

  /** The points of the entries with data. */
  function PointSum(entries: seq<Entry>): nat
  {
    if entries == [] then 0
    else
      var last := entries[|entries| - 1];
      PointSum(entries[..|entries| - 1]) + if last.pointCount > 0 then last.pointCount else 0
  }

  predicate HeaderOk(h: Header)
  {
    h.otherwiseValid && h.rootOffset > 0 && h.rootSize > 0 && h.rootSize % 32 == 0 && h.rootOffset + h.rootSize <= h.fileSize
  }

  /** A hierarchy of pages, each at its own place, in the file of the header and with as many points as it says. */
  ghost predicate LaidOut(bytes: seq<byte>, h: Header, root: Page)
  {
    && root.offset == h.rootOffset && root.size == h.rootSize && PageWritten(bytes, h.fileSize, root)
    && Distinct([root.offset] + Offsets(root.items))
    && PointSum(Entries(root.items)) == h.pointCount
  }

  // ----- Reading is the inverse

  lemma {:induction false} ItemWrittenMatches(bytes: seq<byte>, h: Header, at: nat, item: Item)
    requires at + ENTRY_SIZE <= |bytes|
    ensures ItemMatches(bytes, h, at, item) <==> ItemWritten(bytes, h.fileSize, at, item)
    decreases item
  {
    hide EntryAt, Fits, EntryBytes, PageMatches, PageWritten;
    EntryRoundTrip(bytes, at, item.entry);
    if item.Link? {
      PageWrittenMatches(bytes, h, item.page);
    }
  }

  lemma {:induction false} ItemsWrittenMatches(bytes: seq<byte>, h: Header, at: nat, items: seq<Item>)
    requires at + ENTRY_SIZE * |items| <= |bytes|
    ensures ItemsMatch(bytes, h, at, items) <==> ItemsWritten(bytes, h.fileSize, at, items)
    decreases items
  {
    if items != [] {
      var m := |items| - 1;
      ItemsWrittenMatches(bytes, h, at, items[..m]);
      ItemWrittenMatches(bytes, h, at + ENTRY_SIZE * m, items[m]);
    }
  }

  lemma {:induction false} PageWrittenMatches(bytes: seq<byte>, h: Header, page: Page)
    ensures PageMatches(bytes, h, page) <==> PageWritten(bytes, h.fileSize, page)
    decreases page
  {
    hide ItemsMatch, ItemsWritten;
    if page.size == ENTRY_SIZE * |page.items| && page.offset + page.size <= |bytes| {
      ItemsWrittenMatches(bytes, h, page.offset, page.items);
    }
  }

  lemma {:induction false} PointSumIsTotal(entries: seq<Entry>)
    ensures PointSum(entries) == PointTotal(entries)
  {
    if entries != [] {
      PointSumIsTotal(entries[..|entries| - 1]);
    }
  }

  /** What the reader takes for the hierarchy of a file is what a writer has laid out there. */
  lemma HierarchyIsLayout(bytes: seq<byte>, h: Header, root: Page)
    ensures IsHierarchy(bytes, h, root) <==> LaidOut(bytes, h, root)
    ensures h.IsValid() <==> HeaderOk(h)
  {
    hide PageMatches, PageWritten, Entries, Offsets, PointTotal, PointSum, Distinct;
    PageWrittenMatches(bytes, h, root);
    PointSumIsTotal(Entries(root.items));
  }

  /** A hierarchy that was laid out is read back: its entries, each page's after the entry that names it. */
  method ReadLaidOut(bytes: seq<byte>, header: Header, ghost root: Page) returns (ok: bool, entries: seq<Entry>)
    requires HeaderOk(header) && LaidOut(bytes, header, root)
    ensures ok && entries == Entries(root.items)
  {
    hide IsHierarchy, LaidOut, Entries;
    HierarchyIsLayout(bytes, header, root);
    ghost var found;
    ok, entries, found := ReadHierarchy(bytes, header);
    OneHierarchy(bytes, header, root, found);
  }

  lemma OneHierarchy(bytes: seq<byte>, h: Header, a: Page, b: Page)
    requires IsHierarchy(bytes, h, a) && IsHierarchy(bytes, h, b)
    ensures a == b
  {
    hide PageMatches, Entries, Offsets, PointTotal, Distinct;
    WalkUnique(bytes, h, a, b, {}, 0);
  }

  // ----- A single page

  /** The entries stand one after the other from `at` on. */
  ghost predicate EntriesWritten(bytes: seq<byte>, at: nat, entries: seq<Entry>)
    requires at + ENTRY_SIZE * |entries| <= |bytes|
  {
    forall k :: 0 <= k < |entries| ==> EntryWritten(bytes, at + ENTRY_SIZE * k, entries[k])
  }

  predicate EntryWritten(bytes: seq<byte>, at: nat, e: Entry)
    requires at + ENTRY_SIZE <= |bytes|
  {
    Fits(e) && bytes[at..at + ENTRY_SIZE] == EntryBytes(e)
  }

  function PlainItems(entries: seq<Entry>): (r: seq<Item>)
    ensures |r| == |entries|
  {
    seq(|entries|, k requires 0 <= k < |entries| => Plain(entries[k]))
  }

  /** The entry needs no page, and its data lies in the file. */
  predicate Simple(h: Header, e: Entry)
  {
    IsEmptyEntry(e) || (IsDataEntry(e) && e.offset + e.byteSize <= h.fileSize)
  }

  lemma PlainLast(entries: seq<Entry>)
    requires entries != []
    ensures var m, items := |entries| - 1, PlainItems(entries);
      && items[..m] == PlainItems(entries[..m]) && items[m] == Plain(entries[m])
      && Entries(items) == Entries(items[..m]) + [entries[m]] && Offsets(items) == Offsets(items[..m])
  {
    var m, items := |entries| - 1, PlainItems(entries);
    assert items[..m] == PlainItems(entries[..m]);
  }

  lemma {:induction false} PlainItemsWritten(bytes: seq<byte>, h: Header, at: nat, entries: seq<Entry>)
    requires forall e :: e in entries ==> Simple(h, e)
    requires at + ENTRY_SIZE * |entries| <= |bytes| && EntriesWritten(bytes, at, entries)
    ensures ItemsWritten(bytes, h.fileSize, at, PlainItems(entries))
    ensures Entries(PlainItems(entries)) == entries && Offsets(PlainItems(entries)) == []
  {
    hide *;
    if entries == [] {
      NothingWritten(bytes, h, at);
    } else {
      var m := |entries| - 1;
      WrittenFront(bytes, at, entries);
      assert entries[m] in entries;
      PlainItemsWritten(bytes, h, at, entries[..m]);
      PlainLast(entries);
      PlainNext(bytes, h, at, entries);
      assert entries == entries[..m] + [entries[m]];
    }
  }

  lemma NothingWritten(bytes: seq<byte>, h: Header, at: nat)
    requires at <= |bytes|
    ensures ItemsWritten(bytes, h.fileSize, at, PlainItems([]))
    ensures Entries(PlainItems([])) == [] && Offsets(PlainItems([])) == []
  {
    assert PlainItems([]) == [];
  }

  lemma WrittenFront(bytes: seq<byte>, at: nat, entries: seq<Entry>)
    requires entries != [] && at + ENTRY_SIZE * |entries| <= |bytes| && EntriesWritten(bytes, at, entries)
    ensures at + ENTRY_SIZE * (|entries| - 1) <= |bytes| && EntriesWritten(bytes, at, entries[..|entries| - 1])
    ensures EntryWritten(bytes, at + ENTRY_SIZE * (|entries| - 1), entries[|entries| - 1])
  {
    hide EntryWritten;
  }

  lemma PlainNext(bytes: seq<byte>, h: Header, at: nat, entries: seq<Entry>)
    requires entries != [] && Simple(h, entries[|entries| - 1]) && at + ENTRY_SIZE * |entries| <= |bytes|
    requires EntryWritten(bytes, at + ENTRY_SIZE * (|entries| - 1), entries[|entries| - 1])
    requires ItemsWritten(bytes, h.fileSize, at, PlainItems(entries[..|entries| - 1]))
    ensures ItemsWritten(bytes, h.fileSize, at, PlainItems(entries))
  {
    PlainLast(entries);
    hide PlainItems, Fits, EntryBytes;
  }

  /** A root page of entries without pages is read back as these entries. */
  method ReadSinglePage(bytes: seq<byte>, header: Header, ghost written: seq<Entry>) returns (ok: bool, entries: seq<Entry>)
    requires HeaderOk(header) && header.rootOffset + header.rootSize <= |bytes|
    requires header.rootSize == ENTRY_SIZE * |written| && forall e :: e in written ==> Simple(header, e)
    requires EntriesWritten(bytes, header.rootOffset, written) && PointSum(written) == header.pointCount
    ensures ok && entries == written
  {
    hide Simple, EntriesWritten, PlainItems, ItemsWritten, Entries, Offsets, PointSum;
    PlainItemsWritten(bytes, header, header.rootOffset, written);
    ghost var root := Page(header.rootOffset, header.rootSize, PlainItems(written));
    ok, entries := ReadLaidOut(bytes, header, root);
  }
}
