/** A table's rows on a chain of slotted pages. */
module HeapTables {
  import opened Wrappers
  import opened Bytes
  import opened RowParsing
  import opened RowCodec
  import opened HeapChain
  import opened RecordPages
  import S = SlottedPages
  import L = SlottedLayout

  type PageMap = map<nat, S.PageBytes>

  datatype Error = Unencodable(reason: RowError) | RecordTooLarge | NoSuchRow

  datatype Inserted = At(rid: Rid) | NotInserted(error: Error)

  datatype Status = Done | Failed(error: Error)

  datatype Found = RowFound(row: Row) | NotFound

  type RowMeaning = (Row, seq<Byte>) -> bool

  /** The relation says which bytes are those of a row. */
  ghost predicate MeansRow(schema: seq<Column>, isRow: RowMeaning) {
    |schema| < 0x1_0000_0000 && forall row, b {:trigger IsRow(schema, row, b)} :: isRow(row, b) <==>
        IsRow(schema, row, b)
  }

  /** Every record is the bytes of a row. */
  ghost predicate AllRows(isRow: RowMeaning, stored: map<Rid, seq<Byte>>) {
    forall rid :: rid in stored ==> exists row :: isRow(row, stored[rid])
  }

  method EncodeRow(schema: seq<Column>, ghost isRow: RowMeaning, row: Row) returns (r: Result<seq<Byte>>)
    requires MeansRow(schema, isRow)
    ensures if r.Ok? then isRow(row, r.value) else IsMisfit(schema, row, r.error)
  {
    r := Encode(schema, row);
    assert r.Ok? ==> IsRow(schema, row, r.value);
  }

  method DecodeRow(schema: seq<Column>, ghost isRow: RowMeaning, b: seq<Byte>) returns (row: Row)
    requires MeansRow(schema, isRow) && exists row :: isRow(row, b)
    ensures isRow(row, b) && forall other :: isRow(other, b) ==> other == row
  {
    ghost var given :| isRow(given, b);
    assert IsRow(schema, given, b);
    var r := Decode(schema, b);
    assert IsRow(schema, r.value, b);
    forall other | isRow(other, b) ensures other == r.value {
      assert IsRow(schema, other, b);
      RowIsUnique(schema, other, r.value, b);
    }
    return r.value;
  }

  ghost predicate NoneBefore(room: Room, pages: PageMap, chain: seq<nat>, length: nat, i: nat)
    requires i <= |chain|
  {
    forall j :: 0 <= j < i ==> chain[j] in pages && !room(pages[chain[j]], length)
  }

  /** The page that a record goes to: the first of the chain with room, or a new one if there is none. */
  ghost predicate IsPlace(room: Room, pages: PageMap, chain: seq<nat>, length: nat, p: nat, newPage: nat,
                          chain': seq<nat>) {
    if p == newPage then chain' == chain + [newPage] && NoneBefore(room, pages, chain, length, |chain|)
    else
      chain' == chain
      && p in pages && room(pages[p], length)
      && exists i :: 0 <= i < |chain| && p == chain[i] && NoneBefore(room, pages, chain, length, i)
  }

  lemma FirstIsPlace(room: Room, pages: PageMap, chain: seq<nat>, length: nat, i: nat, newPage: nat)
    requires i < |chain| && newPage !in chain && NoneBefore(room, pages, chain, length, i)
    requires chain[i] in pages && room(pages[chain[i]], length)
    ensures IsPlace(room, pages, chain, length, chain[i], newPage, chain)
  {
  }

  class HeapTable {
    const schema: seq<Column>
    const first: nat
    /** How the table knows its pages and its rows; `Valid` says what the three relations mean. */
    ghost const shows: Meaning
    ghost const room: Room
    ghost const isRow: RowMeaning
    var pages: PageMap
    ghost var heap: Heap<S.PageBytes>

    ghost predicate Placed()
      reads this
    {
      Means(shows) && MeansRoom(room) && heap.pages == pages && HeapOk(shows, heap, first)
    }

    ghost predicate Valid()
      reads this
    {
      Placed() && MeansRow(schema, isRow) && AllRows(isRow, heap.stored)
    }

    /** A table starts with one empty page. */
    constructor (schema: seq<Column>, first: nat, pages: PageMap)
      requires |schema| < 0x1_0000_0000 && IsPageId(first) && first in pages
               && Shows(pages[first], Content(map[], NO_PAGE))
      ensures Valid() && heap.stored == map[] && this.schema == schema && this.first == first && this.pages == pages
    {
      this.schema := schema;
      this.first := first;
      this.pages := pages;
      shows := Shows;
      room := HasRoomFor;
      isRow := (row, b) => IsRow(schema, row, b);
      heap := Heap(pages, map[first := Content(map[], NO_PAGE)], [first], map[]);
    }

    // ----- inserting -----

    /** The row goes to the first page of the chain with room for it, or to a new page at the end when none has. No
        other row changes. */
    method InsertRow(row: Row, newPage: nat) returns (r: Inserted)
      requires Valid() && IsPageId(newPage) && newPage !in heap.chain
      modifies this
      ensures Valid()
      ensures r.NotInserted? ==> pages == old(pages) && heap == old(heap)
      ensures r.NotInserted? ==>
                if r.error.Unencodable? then IsMisfit(schema, row, r.error.reason)
                else r.error.RecordTooLarge? && exists b :: isRow(row, b) && |b| > L.MAX_RECORD
      ensures r.At? ==> r.rid !in old(heap).stored && r.rid in heap.stored && isRow(row, heap.stored[r.rid])
      ensures r.At? ==> heap.stored == old(heap).stored[r.rid := heap.stored[r.rid]]
      ensures r.At? ==> IsPlace(room, old(pages), old(heap).chain, |heap.stored[r.rid]|, r.rid.page, newPage,
                                heap.chain)
    {
      var encoded := EncodeRow(schema, isRow, row);
      if encoded.Err? { return NotInserted(Unencodable(encoded.error)); }
      var b := encoded.value;
      if |b| > L.MAX_RECORD { return NotInserted(RecordTooLarge); }
      var rid := Place(b, newPage);
      return At(rid);
    }

    method Place(b: seq<Byte>, newPage: nat) returns (rid: Rid)
      requires Placed() && IsPageId(newPage) && newPage !in heap.chain && |b| <= L.MAX_RECORD
      modifies this
      ensures Placed() && rid !in old(heap).stored && heap.stored == old(heap).stored[rid := b]
      ensures IsPlace(room, old(pages), old(heap).chain, |b|, rid.page, newPage, heap.chain)
    {
      var current := first;
      ghost var i := 0;
      while true
        invariant i < |heap.chain| && current == heap.chain[i] && Placed() && heap == old(heap) && pages == old(pages)
        invariant NoneBefore(room, pages, heap.chain, |b|, i)
        decreases |heap.chain| - i
      {
        var placed := InsertInto(current, b);
        if placed.Some? {
          FirstIsPlace(room, old(pages), old(heap).chain, |b|, i, newPage);
          return placed.value;
        }
        var next := Follow(current, i);
        if next == NO_PAGE {
          rid := AppendPage(current, newPage, b);
          return;
        }
        current := next;
        i := i + 1;
      }
    }

    /** The next page of the chain. */
    method Follow(current: nat, ghost i: nat) returns (next: nat)
      requires Placed() && i < |heap.chain| && current == heap.chain[i]
      ensures current in heap.view && heap.view[current].next == next == Successor(heap.chain, i) && 0 < next <= NO_PAGE
      ensures next == NO_PAGE <==> i + 1 == |heap.chain|
    {
      LinkIs(heap.view, heap.chain, i);
      next := NextOf(shows, pages[current], heap.view[current]);
    }

    method InsertInto(current: nat, b: seq<Byte>) returns (r: Option<Rid>)
      requires Placed() && current in heap.chain && |b| <= L.MAX_RECORD
      modifies this
      ensures Placed() && heap.chain == old(heap).chain && current in old(pages)
      ensures r.Some? <==> room(old(pages)[current], |b|)
      ensures r.None? ==> pages == old(pages) && heap == old(heap)
      ensures r.Some? ==> r.value.page == current && r.value !in old(heap).stored
      ensures r.Some? ==> heap.stored == old(heap).stored[r.value := b]
    {
      var slotted := Insert(shows, room, pages[current], heap.view[current], b);
      match slotted
      case NoRoom => return None;
      case InSlot(slot, page) =>
        WithRecordOk(shows, heap, first, current, slot, page, b);
        pages := pages[current := page];
        heap := WithRecord(heap, current, slot, page, b);
        return Some(Rid(current, slot));
    }

    method AppendPage(last: nat, newPage: nat, b: seq<Byte>) returns (rid: Rid)
      requires Placed() && last == heap.chain[|heap.chain| - 1] && IsPageId(newPage) && newPage !in heap.chain
               && |b| <= L.MAX_RECORD
      modifies this
      ensures Placed() && heap.chain == old(heap).chain + [newPage]
      ensures rid.page == newPage && rid !in old(heap).stored && heap.stored == old(heap).stored[rid := b]
    {
      var slot, page := NewWith(shows, b);
      var linked := Relink(shows, pages[last], heap.view[last], newPage);
      WithPageOk(shows, heap, first, linked, newPage, page, slot, b);
      pages := pages[newPage := page][last := linked];
      heap := WithPage(heap, last, linked, newPage, page, slot, b);
      return Rid(newPage, slot);
    }

    // ----- finding and deleting -----

    /** Whether the page belongs to the table, and where in the chain it is. */
    method FindPage(p: nat) returns (found: bool, ghost at: nat)
      requires Placed()
      ensures found <==> p in heap.chain
      ensures found ==> at < |heap.chain| && heap.chain[at] == p
    {
      var current := first;
      at := 0;
      while true
        invariant at < |heap.chain| && current == heap.chain[at] && forall j :: 0 <= j < at ==> heap.chain[j] != p
        decreases |heap.chain| - at
      {
        if current == p { return true, at; }
        var next := Follow(current, at);
        if next == NO_PAGE { return false, at; }
        current := next;
        at := at + 1;
      }
    }

    method FindPredecessor(p: nat, ghost at: nat) returns (before: nat)
      requires Placed() && 0 < at < |heap.chain| && heap.chain[at] == p
      ensures before == heap.chain[at - 1]
    {
      before := first;
      ghost var i := 0;
      while true
        invariant i < at && before == heap.chain[i]
        decreases at - i
      {
        var next := Follow(before, i);
        if next == p { return; }
        before := next;
        i := i + 1;
      }
    }

    /** A row is found under its identifier and no other, and as it was inserted. */
    method GetRow(rid: Rid) returns (r: Found)
      requires Valid()
      ensures r.RowFound? <==> rid in heap.stored
      ensures r.RowFound? ==> isRow(r.row, heap.stored[rid]) && forall row :: isRow(row, heap.stored[rid]) ==>
                row == r.row
    {
      var b := GetRecord(rid);
      if b.None? { return NotFound; }
      var row := DecodeRow(schema, isRow, b.value);
      return RowFound(row);
    }

    method GetRecord(rid: Rid) returns (r: Option<seq<Byte>>)
      requires Placed()
      ensures r == if rid in heap.stored then Some(heap.stored[rid]) else None
    {
      assert rid in heap.stored <==> HasRow(heap.view, heap.chain, rid);
      var found, at := FindPage(rid.page);
      if !found { return None; }
      r := Get(shows, pages[rid.page], heap.view[rid.page], rid.slot);
    }

    method HasRecord(rid: Rid, ghost at: nat) returns (used: bool)
      requires Placed() && at < |heap.chain| && heap.chain[at] == rid.page
      ensures used <==> rid in heap.stored
    {
      assert rid in heap.stored <==> HasRow(heap.view, heap.chain, rid);
      var b := Get(shows, pages[rid.page], heap.view[rid.page], rid.slot);
      used := b.Some?;
    }

    method SlotCountOf(p: nat, ghost at: nat) returns (count: nat)
      requires Placed() && at < |heap.chain| && heap.chain[at] == p
      ensures forall rid :: rid in heap.stored && rid.page == p ==> rid.slot < count
    {
      count := SlotCount(shows, pages[p], heap.view[p]);
    }

    /** Exactly that row goes. Its page leaves the chain if it is empty then, unless it is the first. */
    method DeleteRow(rid: Rid) returns (r: Status)
      requires Valid()
      modifies this
      ensures Valid()
      ensures r == if rid in old(heap).stored then Done else Failed(NoSuchRow)
      ensures heap.stored == old(heap).stored - {rid}
      ensures r.Failed? ==> pages == old(pages) && heap == old(heap)
      ensures heap.chain == old(heap).chain
              || exists i ::
                   0 < i < |old(heap).chain| && old(heap).chain[i] == rid.page
                   && heap.chain == Without(old(heap).chain, i)
    {
      r := DeleteRecord(rid);
    }

    method DeleteRecord(rid: Rid) returns (r: Status)
      requires Placed()
      modifies this
      ensures Placed()
      ensures r == if rid in old(heap).stored then Done else Failed(NoSuchRow)
      ensures heap.stored == old(heap).stored - {rid}
      ensures r.Failed? ==> pages == old(pages) && heap == old(heap)
      ensures heap.chain == old(heap).chain
              || exists i ::
                   0 < i < |old(heap).chain| && old(heap).chain[i] == rid.page
                   && heap.chain == Without(old(heap).chain, i)
    {
      assert rid in heap.stored <==> HasRow(heap.view, heap.chain, rid);
      var found, at := FindPage(rid.page);
      if !found { return Failed(NoSuchRow); }
      var deletion := Delete(shows, pages[rid.page], heap.view[rid.page], rid.slot);
      if deletion.NoRecord? { return Failed(NoSuchRow); }
      if rid.page == first {
        KeepPage(rid, deletion.page);
        return Done;
      }
      var before := FindPredecessor(rid.page, at);
      ghost var left := heap.view[rid.page].(records := heap.view[rid.page].records - {rid.slot});
      var empty := IsEmpty(shows, deletion.page, left);
      if !empty {
        KeepPage(rid, deletion.page);
      } else {
        OnlyRecord(heap.view[rid.page].records, rid.slot);
        DropPage(rid, at, before, deletion.page);
      }
      return Done;
    }

    method KeepPage(rid: Rid, page: S.PageBytes)
      requires Placed() && rid.page in heap.chain
      requires rid.page == first || heap.view[rid.page].records - {rid.slot} != map[]
      requires shows(page, heap.view[rid.page].(records := heap.view[rid.page].records - {rid.slot}))
      modifies this
      ensures Placed() && heap.chain == old(heap).chain && heap.stored == old(heap).stored - {rid}
    {
      WithoutRecordOk(shows, heap, first, rid.page, rid.slot, page);
      pages := pages[rid.page := page];
      heap := WithoutRecord(heap, rid.page, rid.slot, page);
    }

    method DropPage(rid: Rid, ghost at: nat, before: nat, page: S.PageBytes)
      requires Placed() && 0 < at < |heap.chain| && heap.chain[at] == rid.page && heap.chain[at - 1] == before
      requires heap.view[rid.page].records.Keys == {rid.slot}
      requires shows(page, heap.view[rid.page].(records := heap.view[rid.page].records - {rid.slot}))
      modifies this
      ensures Placed() && heap.chain == Without(old(heap).chain, at) && heap.stored == old(heap).stored - {rid}
    {
      assert before in heap.chain && rid.page in heap.chain;
      var next := Follow(rid.page, at);
      var linked := Relink(shows, pages[before], heap.view[before], next);
      WithoutPageOk(shows, heap, first, at, rid.slot, page, linked);
      pages := pages[rid.page := page][before := linked];
      heap := WithoutPage(heap, at, rid.slot, page, linked);
    }
  }

  lemma OnlyRecord(records: map<nat, seq<Byte>>, slot: nat)
    requires slot in records && records - {slot} == map[]
    ensures records.Keys == {slot}
  {
    forall k | k in records ensures k == slot {
      assert k != slot ==> k in records - {slot};
    }
  }

  // ----- scanning -----

  /** The row lies before the place: on an earlier page, or in an earlier slot of that page. */
  ghost predicate Passed(chain: seq<nat>, rid: Rid, at: nat, slot: nat) {
    exists i :: 0 <= i < |chain| && chain[i] == rid.page && (i < at || (i == at && rid.slot < slot))
  }

  ghost predicate AfterEarlier(chain: seq<nat>, rids: seq<Rid>, k: nat, i: nat)
    requires k < |rids| && i < |chain|
  {
    chain[i] == rids[k].page && forall j :: 0 <= j < k ==> Passed(chain, rids[j], i, rids[k].slot)
  }

  ghost predicate IsAfterEarlier(chain: seq<nat>, rids: seq<Rid>, k: nat)
    requires k < |rids|
  {
    exists i :: 0 <= i < |chain| && AfterEarlier(chain, rids, k, i)
  }

  ghost predicate InOrder(chain: seq<nat>, rids: seq<Rid>) {
    forall k :: 0 <= k < |rids| ==> IsAfterEarlier(chain, rids, k)
  }

  /** All rows before the place have been listed, in order and once each, and no others. */
  ghost predicate ListedUpTo(chain: seq<nat>, stored: map<Rid, seq<Byte>>, rids: seq<Rid>, at: nat, slot: nat) {
    && (forall k :: 0 <= k < |rids| ==> rids[k] in stored && Passed(chain, rids[k], at, slot))
    && (forall rid :: rid in stored && Passed(chain, rid, at, slot) ==> rid in rids)
    && InOrder(chain, rids)
  }

  lemma SlotPassed(chain: seq<nat>, stored: map<Rid, seq<Byte>>, rids: seq<Rid>, at: nat, slot: nat, next: nat)
    requires Distinct(chain) && ListedUpTo(chain, stored, rids, at, slot) && at < |chain| && next == slot + 1
    ensures var rid := Rid(chain[at], slot);
            ListedUpTo(chain, stored, if rid in stored then rids + [rid] else rids, at, next)
  {
    var here := Rid(chain[at], slot);
    forall rid ensures Passed(chain, rid, at, next) <==> Passed(chain, rid, at, slot) || rid == here {
    }
    if here in stored {
      var longer := rids + [here];
      assert longer[|rids|] == here;
      OneMoreInOrder(chain, rids, here, at);
      forall rid | rid in stored && Passed(chain, rid, at, next) ensures rid in longer {
        assert rid != here ==> rid in rids;
      }
    }
  }

  lemma OneMoreInOrder(chain: seq<nat>, rids: seq<Rid>, rid: Rid, at: nat)
    requires InOrder(chain, rids) && at < |chain| && chain[at] == rid.page
    requires forall k :: 0 <= k < |rids| ==> Passed(chain, rids[k], at, rid.slot)
    ensures InOrder(chain, rids + [rid])
  {
    var longer := rids + [rid];
    forall k: nat | k < |longer| ensures IsAfterEarlier(chain, longer, k) {
      if k < |rids| {
        assert IsAfterEarlier(chain, rids, k);
        var i :| 0 <= i < |chain| && AfterEarlier(chain, rids, k, i);
        assert AfterEarlier(chain, longer, k, i);
      } else {
        assert AfterEarlier(chain, longer, k, at);
      }
    }
  }

  lemma PagePassed(chain: seq<nat>, stored: map<Rid, seq<Byte>>, rids: seq<Rid>, at: nat, slot: nat)
    requires Distinct(chain) && ListedUpTo(chain, stored, rids, at, slot) && at < |chain|
    requires forall rid :: rid in stored && rid.page == chain[at] ==> rid.slot < slot
    ensures ListedUpTo(chain, stored, rids, at + 1, 0)
  {
    forall rid | rid in stored ensures Passed(chain, rid, at + 1, 0) <==> Passed(chain, rid, at, slot) {
    }
  }

  lemma {:induction false} EachOnce(chain: seq<nat>, rids: seq<Rid>, j: nat, k: nat)
    requires Distinct(chain) && InOrder(chain, rids) && j < k < |rids|
    ensures rids[j] != rids[k]
  {
    assert IsAfterEarlier(chain, rids, k);
    var i :| 0 <= i < |chain| && AfterEarlier(chain, rids, k, i);
    assert Passed(chain, rids[j], i, rids[k].slot);
  }

  /** Reads a table row by row, one page at a time. */
  class ScanCursor {
    const table: HeapTable
    var currentPage: nat
    var nextSlot: nat
    ghost var at: nat
    ghost var listed: seq<Rid>

    ghost predicate Valid()
      reads this, table
    {
      && table.Valid() && at <= |table.heap.chain|
      && currentPage == (if at < |table.heap.chain| then table.heap.chain[at] else NO_PAGE)
      && ListedUpTo(table.heap.chain, table.heap.stored, listed, at, nextSlot)
    }

    constructor (table: HeapTable)
      requires table.Valid()
      ensures Valid() && this.table == table && listed == []
    {
      this.table := table;
      currentPage := table.first;
      nextSlot := 0;
      at := 0;
      listed := [];
    }

    /** The next row, if there is one left. */
    method Next() returns (r: Option<(Rid, Row)>)
      requires Valid()
      modifies this
      ensures Valid()
      ensures r.Some? ==>
                && listed == old(listed) + [r.value.0] && r.value.0 in table.heap.stored
                && table.isRow(r.value.1, table.heap.stored[r.value.0])
      ensures r.None? ==> listed == old(listed) && forall rid :: rid in table.heap.stored ==> rid in listed
    {
      while currentPage != NO_PAGE
        invariant Valid() && listed == old(listed)
        decreases |table.heap.chain| - at
      {
        var rid := NextOnPage();
        if rid.Some? {
          var found := table.GetRow(rid.value);
          return Some((rid.value, found.row));
        }
        AdvancePage();
      }
      PagesAreReal(table.heap.view, table.heap.chain);
      AllPassed(table.heap, table.first, at, nextSlot);
      return None;
    }

    lemma Bounded()
      requires Valid()
      ensures InOrder(table.heap.chain, listed) && |listed| <= |table.heap.stored|
      ensures forall rid :: rid in listed ==> rid in table.heap.stored
      ensures forall j, k :: 0 <= j < k < |listed| ==> listed[j] != listed[k]
    {
      ListedIsBounded(table.heap.chain, table.heap.stored, listed);
      forall j, k | 0 <= j < k < |listed| ensures listed[j] != listed[k] {
        EachOnce(table.heap.chain, listed, j, k);
      }
    }

    /** The next occupied slot of the page. */
    method NextOnPage() returns (r: Option<Rid>)
      requires Valid() && at < |table.heap.chain|
      modifies this`nextSlot, this`listed
      ensures Valid() && at < |table.heap.chain|
      ensures r.Some? ==> listed == old(listed) + [r.value] && r.value in table.heap.stored
      ensures r.None? ==> listed == old(listed)
                          && forall rid :: rid in table.heap.stored && rid.page == currentPage ==> rid.slot < nextSlot
    {
      var count := table.SlotCountOf(currentPage, at);
      while nextSlot < count
        invariant Valid() && at < |table.heap.chain| && listed == old(listed)
        decreases count - nextSlot
      {
        r := TakeSlot();
        if r.Some? { return; }
      }
      return None;
    }

    method TakeSlot() returns (r: Option<Rid>)
      requires Valid() && at < |table.heap.chain|
      modifies this`nextSlot, this`listed
      ensures Valid() && nextSlot == old(nextSlot) + 1
      ensures r.Some? ==> listed == old(listed) + [r.value] && r.value in table.heap.stored
      ensures r.None? ==> listed == old(listed)
    {
      var rid, next := Rid(currentPage, nextSlot), nextSlot + 1;
      SlotPassed(table.heap.chain, table.heap.stored, listed, at, nextSlot, next);
      var used := table.HasRecord(rid, at);
      nextSlot := next;
      if !used { return None; }
      listed := listed + [rid];
      return Some(rid);
    }

    method AdvancePage()
      requires Valid() && at < |table.heap.chain|
      requires forall rid :: rid in table.heap.stored && rid.page == currentPage ==> rid.slot < nextSlot
      modifies this
      ensures Valid() && at == old(at) + 1 && listed == old(listed)
    {
      PagePassed(table.heap.chain, table.heap.stored, listed, at, nextSlot);
      currentPage := table.Follow(currentPage, at);
      at := at + 1;
      nextSlot := 0;
    }
  }

  lemma AllPassed<P>(h: Heap<P>, first: nat, at: nat, slot: nat)
    requires ChainOk(h.view, h.chain) && StoredOk(h.view, h.chain, h.stored) && at >= |h.chain|
    ensures forall rid :: rid in h.stored ==> Passed(h.chain, rid, at, slot)
  {
    forall rid | rid in h.stored ensures Passed(h.chain, rid, at, slot) {
      assert HasRow(h.view, h.chain, rid);
    }
  }

  function RidsOf(rows: seq<(Rid, Row)>): (rids: seq<Rid>)
    ensures |rids| == |rows| && forall k :: 0 <= k < |rows| ==> rids[k] == rows[k].0
  {
    seq(|rows|, k requires 0 <= k < |rows| => rows[k].0)
  }

  /** Each row comes with its content. */
  ghost predicate AreRowsOf(isRow: RowMeaning, stored: map<Rid, seq<Byte>>, rows: seq<(Rid, Row)>) {
    forall k :: 0 <= k < |rows| ==> rows[k].0 in stored && isRow(rows[k].1, stored[rows[k].0])
  }

  /** Every row of the table once, in the order of the chain. */
  method Scan(table: HeapTable) returns (rows: seq<(Rid, Row)>)
    requires table.Valid()
    ensures AreRowsOf(table.isRow, table.heap.stored, rows) && InOrder(table.heap.chain, RidsOf(rows))
    ensures forall rid :: rid in table.heap.stored <==> rid in RidsOf(rows)
    ensures forall j, k :: 0 <= j < k < |rows| ==> rows[j].0 != rows[k].0
  {
    var cursor := new ScanCursor(table);
    rows := [];
    while true
      invariant cursor.Valid() && cursor.table == table && fresh(cursor) && RidsOf(rows) == cursor.listed
      invariant AreRowsOf(table.isRow, table.heap.stored, rows)
      decreases |table.heap.stored| - |rows|
    {
      var next := cursor.Next();
      if next.None? { break; }
      OneRowMore(table.isRow, table.heap.stored, rows, next.value);
      cursor.Bounded();
      rows := rows + [next.value];
    }
    cursor.Bounded();
    ghost var rids := RidsOf(rows);
    forall j, k | 0 <= j < k < |rows| ensures rows[j].0 != rows[k].0 {
      assert rids[j] != rids[k];
    }
  }

  lemma OneRowMore(isRow: RowMeaning, stored: map<Rid, seq<Byte>>, rows: seq<(Rid, Row)>, next: (Rid, Row))
    requires AreRowsOf(isRow, stored, rows) && next.0 in stored && isRow(next.1, stored[next.0])
    ensures AreRowsOf(isRow, stored, rows + [next]) && RidsOf(rows + [next]) == RidsOf(rows) + [next.0]
  {
  }

  lemma {:induction false} ListedIsBounded(chain: seq<nat>, stored: map<Rid, seq<Byte>>, rids: seq<Rid>)
    requires Distinct(chain) && InOrder(chain, rids) && forall k :: 0 <= k < |rids| ==> rids[k] in stored
    ensures |rids| <= |stored|
  {
    CountOnce(chain, rids, |rids|);
    SubsetIsSmaller(set k | 0 <= k < |rids| :: rids[k], stored.Keys);
  }

  lemma {:induction false} CountOnce(chain: seq<nat>, rids: seq<Rid>, n: nat)
    requires Distinct(chain) && InOrder(chain, rids) && n <= |rids|
    ensures |set k | 0 <= k < n :: rids[k]| == n
  {
    if n > 0 {
      var m := n - 1;
      CountOnce(chain, rids, m);
      var before := set k | 0 <= k < m :: rids[k];
      forall k | 0 <= k < m ensures rids[k] != rids[m] { EachOnce(chain, rids, k, m); }
      assert (set k | 0 <= k < n :: rids[k]) == before + {rids[m]};
    }
  }

  lemma {:induction false} SubsetIsSmaller(a: set<Rid>, b: set<Rid>)
    requires a <= b
    ensures |a| <= |b|
  {
    if a != {} {
      var x :| x in a;
      SubsetIsSmaller(a - {x}, b - {x});
    }
  }
}
