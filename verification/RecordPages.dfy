/** Slotted pages as values: each operation copies the page, works on the copy in place and gives it back. */
module RecordPages {
  import opened Wrappers
  import opened Bytes
  import opened HeapChain
  import S = SlottedPages
  import L = SlottedLayout

  datatype Slotted = InSlot(slot: nat, page: S.PageBytes) | NoRoom

  datatype Deletion = Deleted(page: S.PageBytes) | NoRecord

  /** The bytes are those of a page that holds the content. */
  ghost predicate Shows(b: S.PageBytes,
                        c: Content) { S.Valid(b) && S.Records(b) == c.records && S.NextPage(b) == c.next }

  /** The page takes one more record of that length. */
  predicate HasRoomFor(b: S.PageBytes, length: nat) { S.Valid(b) && S.Fits(b, length) }

  type Meaning = (S.PageBytes, Content) -> bool

  type Room = (S.PageBytes, nat) -> bool

  /** A table knows its pages only through such relations. */
  ghost predicate Means(shows: Meaning) {
    forall b, c {:trigger Shows(b, c)} :: shows(b, c) <==> Shows(b, c)
  }

  ghost predicate MeansRoom(room: Room) {
    forall b, n {:trigger HasRoomFor(b, n)} :: room(b, n) <==> HasRoomFor(b, n)
  }

  method Copied(b: S.PageBytes) returns (a: array<Byte>)
    ensures fresh(a) && a[..] == b
  {
    a := new Byte[PAGE_SIZE](i requires 0 <= i < PAGE_SIZE => b[i]);
  }

  method Insert(ghost shows: Meaning, ghost room: Room, b: S.PageBytes, ghost c: Content, record: seq<Byte>)
      returns (r: Slotted)
    requires Means(shows) && MeansRoom(room) && shows(b, c) && |record| <= L.MAX_RECORD
    ensures r.InSlot? <==> room(b, |record|)
    ensures r.InSlot? ==> r.slot !in c.records && shows(r.page, c.(records := c.records[r.slot := record]))
  {
    assert Shows(b, c) && (HasRoomFor(b, |record|) <==> room(b, |record|));
    var a := Copied(b);
    var s := S.InsertRecord(a, record);
    match s
    case InsertedAt(slot) =>
      assert Shows(a[..], c.(records := c.records[slot := record]));
      return InSlot(slot, a[..]);
    case _ => return NoRoom;
  }

  /** A new page, at the end of a chain, with one record. */
  method NewWith(ghost shows: Meaning, record: seq<Byte>) returns (slot: nat, page: S.PageBytes)
    requires Means(shows) && |record| <= L.MAX_RECORD
    ensures shows(page, Content(map[slot := record], NO_PAGE))
  {
    var a := new Byte[PAGE_SIZE](_ => 0);
    RangesAre();
    var s := S.Initialize(a, NO_PAGE);
    assert S.Fits(a[..], |record|);
    var inserted := S.InsertRecord(a, record);
    slot := inserted.slot;
    page := a[..];
    assert Shows(page, Content(map[slot := record], NO_PAGE));
  }

  method Delete(ghost shows: Meaning, b: S.PageBytes, ghost c: Content, slot: nat) returns (r: Deletion)
    requires Means(shows) && shows(b, c)
    ensures r.Deleted? <==> slot in c.records
    ensures r.Deleted? ==> shows(r.page, c.(records := c.records - {slot}))
  {
    assert Shows(b, c);
    var a := Copied(b);
    var s := S.DeleteRecord(a, slot);
    match s
    case Done =>
      assert Shows(a[..], c.(records := c.records - {slot}));
      return Deleted(a[..]);
    case _ => return NoRecord;
  }

  method Relink(ghost shows: Meaning, b: S.PageBytes, ghost c: Content, next: nat) returns (page: S.PageBytes)
    requires Means(shows) && shows(b, c) && 0 < next <= NO_PAGE
    ensures shows(page, c.(next := next))
  {
    assert Shows(b, c);
    var a := Copied(b);
    RangesAre();
    var s := S.SetNextPageId(a, next);
    page := a[..];
    assert Shows(page, c.(next := next));
  }

  method NextOf(ghost shows: Meaning, b: S.PageBytes, ghost c: Content) returns (next: nat)
    requires Means(shows) && shows(b, c)
    ensures next == c.next
  {
    assert Shows(b, c);
    next := S.NextPage(b);
  }

  method Get(ghost shows: Meaning, b: S.PageBytes, ghost c: Content, slot: nat) returns (r: Option<seq<Byte>>)
    requires Means(shows) && shows(b, c)
    ensures r == if slot in c.records then Some(c.records[slot]) else None
  {
    assert Shows(b, c);
    var found := S.GetRecord(b, slot);
    match found
    case Record(record) => return Some(record);
    case _ => return None;
  }

  method SlotCount(ghost shows: Meaning, b: S.PageBytes, ghost c: Content) returns (n: nat)
    requires Means(shows) && shows(b, c)
    ensures forall slot :: slot in c.records ==> slot < n
  {
    assert Shows(b, c);
    n := S.SlotCount(b);
  }

  /** Whether every slot of the page is empty. */
  method IsEmpty(ghost shows: Meaning, b: S.PageBytes, ghost c: Content) returns (empty: bool)
    requires Means(shows) && shows(b, c)
    ensures empty <==> c.records == map[]
  {
    var count := SlotCount(shows, b, c);
    for slot := 0 to count
      invariant forall k :: 0 <= k < slot ==> k !in c.records
    {
      var record := Get(shows, b, c, slot);
      if record.Some? { return false; }
    }
    return true;
  }
}
