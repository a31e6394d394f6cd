/** Slotted pages: records of any length in a page of bytes, found through a directory of slots. */
module SlottedPages {
  import opened Bytes
  import opened SlottedLayout

  const PAGE_TYPE: nat := 1
  const TYPE_AT: nat := 0
  const COUNT_AT: nat := 4
  const FREE_START_AT: nat := 8
  const FREE_END_AT: nat := 12
  const NEXT_AT: nat := 16
  const RESERVED_AT: nat := 20

  type PageBytes = b: seq<Byte> | |b| == PAGE_SIZE witness seq(PAGE_SIZE, _ => 0)

  function U32(b: PageBytes, offset: nat): (v: nat)
    requires offset + 4 <= PAGE_SIZE
    ensures v < Range(4)
  {
    Field(b, offset, 4)
  }

  function SlotOf(b: PageBytes, i: nat): Slot
    requires i < MAX_SLOTS
  {
    Slot(U32(b, SlotAt(i)), U32(b, SlotAt(i) + 4), U32(b, SlotAt(i) + 8))
  }

  function Slots(b: PageBytes): (slots: seq<Slot>)
    requires U32(b, COUNT_AT) <= MAX_SLOTS
    ensures |slots| == U32(b, COUNT_AT)
  {
    seq(U32(b, COUNT_AT), i requires 0 <= i < MAX_SLOTS => SlotOf(b, i))
  }

  predicate HeaderOk(b: PageBytes) {
    U32(b, TYPE_AT) == PAGE_TYPE
    && U32(b, RESERVED_AT) == 0 && U32(b, RESERVED_AT + 4) == 0 && U32(b, RESERVED_AT + 8) == 0
    && U32(b, COUNT_AT) <= MAX_SLOTS
    && U32(b, FREE_START_AT) == SlotAt(U32(b, COUNT_AT))
    && U32(b, NEXT_AT) != 0
  }

  predicate Valid(b: PageBytes) { HeaderOk(b) && LayoutOk(Slots(b), U32(b, FREE_END_AT)) }

  function RecordAt(b: PageBytes, s: Slot): seq<Byte>
    requires s.offset + s.length <= PAGE_SIZE
  {
    b[s.offset..s.offset + s.length]
  }

  /** The records by slot number. */
  function Records(b: PageBytes): map<nat, seq<Byte>>
    requires Valid(b)
  {
    var slots := Slots(b);
    map i: nat | i < |slots| && slots[i].IsUsed() :: RecordAt(b, slots[i])
  }

  function NextPage(b: PageBytes): nat { U32(b, NEXT_AT) }

  // ----- writing the directory -----

  predicate FitsU32(s: Slot) { s.offset <= PAGE_SIZE && s.length <= PAGE_SIZE && s.state <= USED }

  function WithSlot(b: PageBytes, i: nat, s: Slot): PageBytes
    requires i < MAX_SLOTS
  {
    var at := SlotAt(i);
    Put(Put(Put(b, at, Store(s.offset, 4)), at + 4, Store(s.length, 4)), at + 8, Store(s.state, 4))
  }

  function WithHeader(b: PageBytes, count: nat, freeEnd: nat): PageBytes
  {
    Put(Put(Put(b, COUNT_AT, Store(count, 4)), FREE_START_AT, Store(SlotAt(count), 4)), FREE_END_AT, Store(freeEnd, 4))
  }

  /** The two agree except in one part. */
  ghost predicate Elsewhere(b: PageBytes, c: PageBytes, lo: nat, hi: nat) {
    forall k :: 0 <= k < PAGE_SIZE && !(lo <= k < hi) ==> b[k] == c[k]
  }

  lemma SmallFits(v: nat)
    requires v <= PAGE_SIZE
    ensures v < Range(4)
  {
    RangesAre();
  }

  lemma WithSlotIs(b: PageBytes, i: nat, s: Slot)
    requires i < MAX_SLOTS && FitsU32(s)
    ensures SlotOf(WithSlot(b, i, s), i) == s
    ensures Elsewhere(b, WithSlot(b, i, s), SlotAt(i), SlotAt(i) + SLOT_SIZE)
  {
    var at, at4, at8 := SlotAt(i), SlotAt(i) + 4, SlotAt(i) + 8;
    SmallFits(s.offset);
    SmallFits(s.length);
    SmallFits(s.state);
    var b1 := Put(b, at, Store(s.offset, 4));
    var b2 := Put(b1, at4, Store(s.length, 4));
    var b3 := Put(b2, at8, Store(s.state, 4));
    PutField(b, at, s.offset, 4);
    PutField(b1, at4, s.length, 4);
    PutField(b2, at8, s.state, 4);
    SameField(b1, b2, at, 4);
    SameField(b2, b3, at, 4);
    SameField(b2, b3, at4, 4);
  }

  lemma WithHeaderIs(b: PageBytes, count: nat, freeEnd: nat)
    requires count <= MAX_SLOTS && freeEnd <= PAGE_SIZE
    ensures var c := WithHeader(b, count, freeEnd);
            U32(c, COUNT_AT) == count && U32(c, FREE_START_AT) == SlotAt(count) && U32(c, FREE_END_AT) == freeEnd
            && Elsewhere(b, c, COUNT_AT, NEXT_AT)
  {
    SmallFits(count);
    SmallFits(SlotAt(count));
    SmallFits(freeEnd);
    var b1 := Put(b, COUNT_AT, Store(count, 4));
    var b2 := Put(b1, FREE_START_AT, Store(SlotAt(count), 4));
    var b3 := Put(b2, FREE_END_AT, Store(freeEnd, 4));
    PutField(b, COUNT_AT, count, 4);
    PutField(b1, FREE_START_AT, SlotAt(count), 4);
    PutField(b2, FREE_END_AT, freeEnd, 4);
    SameField(b1, b2, COUNT_AT, 4);
    SameField(b2, b3, COUNT_AT, 4);
    SameField(b2, b3, FREE_START_AT, 4);
  }

  lemma SameSlot(b: PageBytes, c: PageBytes, i: nat)
    requires i < MAX_SLOTS && Same(b, c, SlotAt(i), SlotAt(i) + SLOT_SIZE)
    ensures SlotOf(b, i) == SlotOf(c, i)
  {
    SameField(b, c, SlotAt(i), 4);
    SameField(b, c, SlotAt(i) + 4, 4);
    SameField(b, c, SlotAt(i) + 8, 4);
  }

  /** The page type, the next page and the reserved fields are as before. */
  lemma SameConstants(b: PageBytes, c: PageBytes)
    requires Same(b, c, 0, COUNT_AT) && Same(b, c, NEXT_AT, HEADER)
    ensures U32(b, TYPE_AT) == U32(c, TYPE_AT) && U32(b, NEXT_AT) == U32(c, NEXT_AT)
    ensures U32(b, RESERVED_AT) == U32(c, RESERVED_AT) && U32(b, RESERVED_AT + 4) == U32(c, RESERVED_AT + 4)
    ensures U32(b, RESERVED_AT + 8) == U32(c, RESERVED_AT + 8)
  {
    SameField(b, c, TYPE_AT, 4);
    SameField(b, c, NEXT_AT, 4);
    SameField(b, c, RESERVED_AT, 4);
    SameField(b, c, RESERVED_AT + 4, 4);
    SameField(b, c, RESERVED_AT + 8, 4);
  }

  // ----- inserting -----

  /** How many slots there are once the target is one of them. */
  function CountWith(b: PageBytes, target: nat): nat {
    if target == U32(b, COUNT_AT) then target + 1 else U32(b, COUNT_AT)
  }

  /** The target is a deleted slot or the next new one, and the record fits in the free space in one piece. */
  predicate HasRoom(b: PageBytes, target: nat, length: nat)
    requires Valid(b)
  {
    target <= U32(b, COUNT_AT) && (target < U32(b, COUNT_AT) ==> !Slots(b)[target].IsUsed())
    && SlotAt(CountWith(b, target)) + length <= U32(b, FREE_END_AT)
  }

  /** What inserting leaves alone: the header's constants, the other slots, and everything from the old end of
      the free space. `b1` has the record, `b2` also the slot, `c` also the header. */
  lemma InsertedElsewhere(b: PageBytes, b1: PageBytes, b2: PageBytes, c: PageBytes, target: nat, freeEnd: nat, n: nat)
    requires target < MAX_SLOTS && SlotAt(target) + SLOT_SIZE <= freeEnd && freeEnd + n <= PAGE_SIZE
    requires Elsewhere(b, b1, freeEnd, freeEnd + n)
    requires Elsewhere(b1, b2, SlotAt(target), SlotAt(target) + SLOT_SIZE)
    requires Elsewhere(b2, c, COUNT_AT, NEXT_AT)
    ensures Same(b, c, 0, COUNT_AT) && Same(b, c, NEXT_AT, HEADER) && Same(b, c, freeEnd + n, PAGE_SIZE)
    ensures Same(b1, c, freeEnd, freeEnd + n) && Same(b2, c, SlotAt(target), SlotAt(target) + SLOT_SIZE)
    ensures forall i: nat :: i != target && SlotAt(i) + SLOT_SIZE <= freeEnd ==>
              Same(b, c, SlotAt(i), SlotAt(i) + SLOT_SIZE)
  {
  }

  lemma SlotsAfter(b: PageBytes, c: PageBytes, target: nat, s: Slot)
    requires U32(b, COUNT_AT) <= MAX_SLOTS && target <= U32(b, COUNT_AT) && target < MAX_SLOTS
    requires U32(c, COUNT_AT) == CountWith(b, target)
    requires forall i: nat :: i != target && i < U32(b, COUNT_AT) ==> Same(b, c, SlotAt(i), SlotAt(i) + SLOT_SIZE)
    requires SlotOf(c, target) == s
    ensures Slots(c) == Placed(Slots(b), target, s)
  {
    forall i: nat | i < U32(b, COUNT_AT) && i != target ensures SlotOf(c, i) == SlotOf(b, i) {
      SameSlot(b, c, i);
    }
  }

  lemma RecordsAre(b: PageBytes, i: nat)
    requires Valid(b)
    ensures i in Records(b) <==> i < U32(b, COUNT_AT) && Slots(b)[i].IsUsed()
    ensures i in Records(b) ==> SlotOk(Slots(b)[i], U32(b, FREE_END_AT)) && Records(b)[i] == RecordAt(b, Slots(b)[i])
  {
  }

  lemma AddedToMap(before: map<nat, seq<Byte>>, after: map<nat, seq<Byte>>, target: nat, record: seq<Byte>)
    requires forall i: nat :: i in after <==> i in before || i == target
    requires forall i: nat :: i in after ==> after[i] == if i == target then record else before[i]
    ensures after == before[target := record]
  {
  }

  lemma RemovedFromMap(before: map<nat, seq<Byte>>, after: map<nat, seq<Byte>>, target: nat)
    requires forall i: nat :: i in after <==> i in before && i != target
    requires forall i: nat :: i in after ==> after[i] == before[i]
    ensures after == before - {target}
  {
  }

  lemma RecordAfter(b: PageBytes, c: PageBytes, target: nat, s: Slot, record: seq<Byte>, i: nat)
    requires Valid(b) && Valid(c) && target <= U32(b, COUNT_AT)
    requires Slots(c) == Placed(Slots(b), target, s)
    requires Same(b, c, U32(b, FREE_END_AT), PAGE_SIZE)
    requires s.IsUsed() && s.offset + s.length <= PAGE_SIZE && RecordAt(c, s) == record
    ensures i in Records(c) <==> i in Records(b) || i == target
    ensures i in Records(c) ==> Records(c)[i] == if i == target then record else Records(b)[i]
  {
    RecordsAre(b, i);
    RecordsAre(c, i);
    if i != target && i in Records(b) { SameRecord(b, c, Slots(b)[i], U32(b, FREE_END_AT)); }
  }

  lemma RecordsAfter(b: PageBytes, c: PageBytes, target: nat, s: Slot, record: seq<Byte>)
    requires Valid(b) && Valid(c) && target <= U32(b, COUNT_AT)
    requires Slots(c) == Placed(Slots(b), target, s)
    requires Same(b, c, U32(b, FREE_END_AT), PAGE_SIZE)
    requires s.IsUsed() && s.offset + s.length <= PAGE_SIZE && RecordAt(c, s) == record
    ensures Records(c) == Records(b)[target := record]
  {
    var before, after := Records(b), Records(c);
    forall i: nat
      ensures i in after <==> i in before || i == target
      ensures i in after ==> after[i] == if i == target then record else before[i]
    {
      RecordAfter(b, c, target, s, record, i);
    }
    AddedToMap(before, after, target, record);
  }

  lemma SameRecord(b: PageBytes, c: PageBytes, s: Slot, freeEnd: nat)
    requires s.IsUsed() && SlotOk(s, freeEnd) && Same(b, c, freeEnd, PAGE_SIZE)
    ensures RecordAt(c, s) == RecordAt(b, s)
  {
    assert forall k :: s.offset <= k < s.offset + s.length ==> b[k] == c[k];
  }

  /** The steps of inserting give the bytes, the directory and the header that were meant. */
  lemma InsertedBytes(b: PageBytes, b1: PageBytes, b2: PageBytes, c: PageBytes, target: nat, s: Slot, count: nat)
    requires Valid(b) && target <= U32(b, COUNT_AT) && target < MAX_SLOTS
    requires count == CountWith(b, target)
    requires s.offset + s.length == U32(b, FREE_END_AT) && SlotAt(count) <= s.offset
    requires Elsewhere(b, b1, s.offset, s.offset + s.length)
    requires Elsewhere(b1, b2, SlotAt(target), SlotAt(target) + SLOT_SIZE) && SlotOf(b2, target) == s
    requires Elsewhere(b2, c, COUNT_AT, NEXT_AT) && U32(c, COUNT_AT) == count
    ensures Same(b, c, 0, COUNT_AT) && Same(b, c, NEXT_AT, HEADER) && Same(b, c, U32(b, FREE_END_AT), PAGE_SIZE)
    ensures Slots(c) == Placed(Slots(b), target, s) && RecordAt(c, s) == RecordAt(b1, s)
  {
    InsertedElsewhere(b, b1, b2, c, target, s.offset, s.length);
    SameSlot(b2, c, target);
    SlotsAfter(b, c, target, s);
  }

  lemma InsertedMeans(b: PageBytes, c: PageBytes, target: nat, s: Slot, record: seq<Byte>)
    requires Valid(b) && HasRoom(b, target, |record|)
    requires s == Slot(s.offset, |record|, USED) && s.offset + |record| == U32(b, FREE_END_AT)
    requires Same(b, c, 0, COUNT_AT) && Same(b, c, NEXT_AT, HEADER) && Same(b, c, U32(b, FREE_END_AT), PAGE_SIZE)
    requires U32(c, COUNT_AT) == CountWith(b, target) <= MAX_SLOTS
    requires U32(c, FREE_START_AT) == SlotAt(U32(c, COUNT_AT)) && U32(c, FREE_END_AT) == s.offset
    requires Slots(c) == Placed(Slots(b), target, s) && RecordAt(c, s) == record
    ensures Valid(c) && Records(c) == Records(b)[target := record] && NextPage(c) == NextPage(b)
  {
    InsertedValid(b, c, target, s, |record|);
    RecordsAfter(b, c, target, s, record);
  }

  lemma InsertedValid(b: PageBytes, c: PageBytes, target: nat, s: Slot, length: nat)
    requires Valid(b) && HasRoom(b, target, length)
    requires s == Slot(s.offset, length, USED) && s.offset + length == U32(b, FREE_END_AT)
    requires Same(b, c, 0, COUNT_AT) && Same(b, c, NEXT_AT, HEADER)
    requires U32(c, COUNT_AT) == CountWith(b, target) <= MAX_SLOTS
    requires U32(c, FREE_START_AT) == SlotAt(U32(c, COUNT_AT)) && U32(c, FREE_END_AT) == s.offset
    requires Slots(c) == Placed(Slots(b), target, s)
    ensures Valid(c) && NextPage(c) == NextPage(b)
  {
    SameConstants(b, c);
    PlacedOk(Slots(b), U32(b, FREE_END_AT), target, length);
  }

  /** Inserting keeps the page valid and adds exactly that record under the target slot. */
  lemma InsertedIs(b: PageBytes, b1: PageBytes, b2: PageBytes, c: PageBytes, target: nat, s: Slot, record: seq<Byte>)
    requires Valid(b) && HasRoom(b, target, |record|)
    requires s == Slot(U32(b, FREE_END_AT) - |record|, |record|, USED)
    requires Elsewhere(b, b1, s.offset, s.offset + s.length) && RecordAt(b1, s) == record
    requires Elsewhere(b1, b2, SlotAt(target), SlotAt(target) + SLOT_SIZE) && SlotOf(b2, target) == s
    requires Elsewhere(b2, c, COUNT_AT, NEXT_AT) && U32(c, COUNT_AT) == CountWith(b, target)
    requires U32(c, FREE_START_AT) == SlotAt(U32(c, COUNT_AT)) && U32(c, FREE_END_AT) == s.offset
    ensures Valid(c) && Records(c) == Records(b)[target := record] && NextPage(c) == NextPage(b)
  {
    InsertedBytes(b, b1, b2, c, target, s, CountWith(b, target));
    InsertedMeans(b, c, target, s, record);
  }

  // ----- deleting -----

  lemma DeletedIs(b: PageBytes, c: PageBytes, target: nat)
    requires Valid(b) && target < U32(b, COUNT_AT) && Slots(b)[target].IsUsed()
    requires Elsewhere(b, c, SlotAt(target), SlotAt(target) + SLOT_SIZE) && SlotOf(c, target) == Slot(0, 0, DELETED)
    ensures Valid(c) && Records(c) == Records(b) - {target} && NextPage(c) == NextPage(b)
    ensures U32(c, COUNT_AT) == U32(b, COUNT_AT)
  {
    SameField(b, c, COUNT_AT, 4);
    SameField(b, c, FREE_START_AT, 4);
    SameField(b, c, FREE_END_AT, 4);
    SameConstants(b, c);
    SlotsAfter(b, c, target, Slot(0, 0, DELETED));
    DeletedOk(Slots(b), U32(b, FREE_END_AT), target);
    RecordsWithout(b, c, target);
  }

  lemma RecordWithout(b: PageBytes, c: PageBytes, target: nat, i: nat)
    requires Valid(b) && Valid(c) && target < U32(b, COUNT_AT)
    requires Slots(c) == Placed(Slots(b), target, Slot(0, 0, DELETED))
    requires Same(b, c, U32(b, FREE_END_AT), PAGE_SIZE)
    ensures i in Records(c) <==> i in Records(b) && i != target
    ensures i in Records(c) ==> Records(c)[i] == Records(b)[i]
  {
    RecordsAre(b, i);
    RecordsAre(c, i);
    if i in Records(c) { SameRecord(b, c, Slots(b)[i], U32(b, FREE_END_AT)); }
  }

  lemma RecordsWithout(b: PageBytes, c: PageBytes, target: nat)
    requires Valid(b) && Valid(c) && target < U32(b, COUNT_AT)
    requires Slots(c) == Placed(Slots(b), target, Slot(0, 0, DELETED))
    requires Same(b, c, U32(b, FREE_END_AT), PAGE_SIZE)
    ensures Records(c) == Records(b) - {target}
  {
    var before, after := Records(b), Records(c);
    forall i: nat
      ensures i in after <==> i in before && i != target
      ensures i in after ==> after[i] == before[i]
    {
      RecordWithout(b, c, target, i);
    }
    RemovedFromMap(before, after, target);
  }

  // ----- packing -----

  /** Packing is done for the first `n` slots of `b`: their records lie at the end of the page in slot order;
      everything else in the header and the directory is untouched. */
  ghost predicate PackedUpTo(b: PageBytes, c: PageBytes, n: nat)
    requires Valid(b)
  {
    var slots := Slots(b);
    n <= |slots| && Same(b, c, 0, HEADER) && Live(slots) <= PAGE_SIZE - SlotAt(|slots|)
    && (forall i: nat :: i < n ==> IsPackedSlot(slots, i, SlotOf(c, i)))
    && (forall i: nat :: i < n ==> slots[i].IsUsed() ==> HasBytes(c, SlotOf(c, i), RecordAt(b, slots[i])))
    && (forall i: nat :: n <= i < |slots| ==> Same(b, c, SlotAt(i), SlotAt(i) + SLOT_SIZE))
  }

  predicate HasBytes(c: PageBytes, s: Slot, record: seq<Byte>) {
    s.length == |record| && s.offset + s.length <= PAGE_SIZE && RecordAt(c, s) == record
  }

  lemma PackingStarts(b: PageBytes)
    requires Valid(b)
    ensures PackedUpTo(b, b, 0)
  {
    LiveFits(Slots(b), U32(b, FREE_END_AT));
  }

  /** The record packed last and its slot lie clear of the records packed before. */
  lemma PackedApart(slots: seq<Slot>, i: nat, n: nat, s: Slot, t: Slot)
    requires i < n < |slots| && SlotAt(|slots|) + Live(slots) <= PAGE_SIZE
    requires IsPackedSlot(slots, i, s) && IsPackedSlot(slots, n, t)
    ensures s.IsUsed() ==> SlotAt(n) + SLOT_SIZE <= s.offset && s.offset + s.length <= PAGE_SIZE
    ensures s.IsUsed() && t.IsUsed() ==> t.offset + t.length <= s.offset
  {
    var m := i + 1;
    LiveOfOneMore(slots, n);
    LiveIsMonotone(slots, m, n);
    LiveGrows(slots, m);
    LiveOfOneMore(slots, i);
  }

  lemma PackedRoom(slots: seq<Slot>, n: nat, t: Slot)
    requires n < |slots| && SlotAt(|slots|) + Live(slots) <= PAGE_SIZE && IsPackedSlot(slots, n, t) && t.IsUsed()
    ensures SlotAt(|slots|) <= t.offset && t.offset + t.length <= PAGE_SIZE
  {
    var m := n + 1;
    LiveOfOneMore(slots, n);
    LiveGrows(slots, m);
  }

  /** What copying a record and rewriting its slot leaves alone. */
  lemma PackingElsewhere(c: PageBytes, c1: PageBytes, c2: PageBytes, n: nat, count: nat, s: Slot)
    requires n < count <= MAX_SLOTS && (s.IsUsed() ==> SlotAt(count) <= s.offset && s.offset + s.length <= PAGE_SIZE)
    requires if s.IsUsed() then Elsewhere(c, c1, s.offset, s.offset + s.length) else c1 == c
    requires Elsewhere(c1, c2, SlotAt(n), SlotAt(n) + SLOT_SIZE)
    ensures Same(c, c2, 0, HEADER)
    ensures forall i: nat :: i < count && i != n ==> Same(c, c2, SlotAt(i), SlotAt(i) + SLOT_SIZE)
    ensures s.IsUsed() ==> Same(c1, c2, s.offset, s.offset + s.length)
    ensures forall lo: nat, hi: nat ::
              SlotAt(count) <= lo <= hi <= PAGE_SIZE && (s.IsUsed() ==> s.offset + s.length <= lo)
              ==> Same(c, c2, lo, hi)
  {
  }

  /** One more record is copied below the ones that are packed, and its slot rewritten. */
  lemma PackingGoesOn(b: PageBytes, c: PageBytes, c1: PageBytes, c2: PageBytes, n: nat, s: Slot)
    requires Valid(b) && n < |Slots(b)| && PackedUpTo(b, c, n) && IsPackedSlot(Slots(b), n, s)
    requires if s.IsUsed() then Elsewhere(c, c1, s.offset, s.offset + s.length)
             && HasBytes(c1, s, RecordAt(b, Slots(b)[n])) else c1 == c
    requires Elsewhere(c1, c2, SlotAt(n), SlotAt(n) + SLOT_SIZE) && SlotOf(c2, n) == s
    ensures PackedUpTo(b, c2, n + 1)
  {
    var slots := Slots(b);
    if s.IsUsed() { PackedRoom(slots, n, s); }
    PackingElsewhere(c, c1, c2, n, |slots|, s);
    AllPackedStay(b, c, c2, n, s);
    if s.IsUsed() { StillHas(c1, c2, s, RecordAt(b, slots[n])); }
  }

  lemma AllPackedStay(b: PageBytes, c: PageBytes, c2: PageBytes, n: nat, s: Slot)
    requires Valid(b) && n < |Slots(b)| && PackedUpTo(b, c, n) && IsPackedSlot(Slots(b), n, s)
    requires forall i: nat :: i < n ==> Same(c, c2, SlotAt(i), SlotAt(i) + SLOT_SIZE)
    requires forall lo: nat, hi: nat ::
               SlotAt(|Slots(b)|) <= lo <= hi <= PAGE_SIZE && (s.IsUsed() ==> s.offset + s.length <= lo)
               ==> Same(c, c2, lo, hi)
    ensures forall i: nat :: i < n ==> IsPackedSlot(Slots(b), i, SlotOf(c2, i))
    ensures forall i: nat :: i < n && Slots(b)[i].IsUsed() ==> HasBytes(c2, SlotOf(c2, i), RecordAt(b, Slots(b)[i]))
  {
    forall i: nat | i < n
      ensures SlotOf(c2, i) == SlotOf(c, i)
      ensures Slots(b)[i].IsUsed() ==> HasBytes(c2, SlotOf(c2, i), RecordAt(b, Slots(b)[i]))
    {
      SameSlot(c, c2, i);
      PackedStays(b, c, c2, i, n, s);
    }
  }

  lemma PackedStays(b: PageBytes, c: PageBytes, c2: PageBytes, i: nat, n: nat, s: Slot)
    requires Valid(b) && i < n < |Slots(b)| && PackedUpTo(b, c, n) && IsPackedSlot(Slots(b), n, s)
    requires SlotOf(c2, i) == SlotOf(c, i)
    requires forall lo: nat, hi: nat ::
               SlotAt(|Slots(b)|) <= lo <= hi <= PAGE_SIZE && (s.IsUsed() ==> s.offset + s.length <= lo)
               ==> Same(c, c2, lo, hi)
    ensures Slots(b)[i].IsUsed() ==> HasBytes(c2, SlotOf(c2, i), RecordAt(b, Slots(b)[i]))
  {
    var slots := Slots(b);
    var t := SlotOf(c, i);
    assert IsPackedSlot(slots, i, t);
    if slots[i].IsUsed() {
      PackedApart(slots, i, n, t, s);
      PackedRoom(slots, i, t);
      StillHas(c, c2, t, RecordAt(b, slots[i]));
    }
  }

  lemma StillHas(c: PageBytes, d: PageBytes, s: Slot, record: seq<Byte>)
    requires HasBytes(c, s, record) && Same(c, d, s.offset, s.offset + s.length)
    ensures HasBytes(d, s, record)
  {
  }

  lemma PackedSlots(b: PageBytes, d: PageBytes)
    requires Valid(b) && U32(d, COUNT_AT) == U32(b, COUNT_AT)
    requires Live(Slots(b)) <= PAGE_SIZE - SlotAt(|Slots(b)|)
    requires forall i: nat :: i < |Slots(b)| ==> IsPackedSlot(Slots(b), i, SlotOf(d, i))
    ensures LayoutOk(Slots(d), PAGE_SIZE - Live(Slots(b)))
    ensures forall i: nat :: i < |Slots(b)| ==> Slots(d)[i].IsUsed() == Slots(b)[i].IsUsed()
  {
    var slots, packed := Slots(b), Slots(d);
    forall i: nat | i < |slots| ensures IsPackedSlot(slots, i, packed[i]) {
      assert packed[i] == SlotOf(d, i);
    }
    PackedOk(slots, packed);
  }

  lemma RecordPacked(b: PageBytes, d: PageBytes, i: nat)
    requires Valid(b) && Valid(d) && |Slots(d)| == |Slots(b)|
    requires forall i: nat :: i < |Slots(b)| ==> Slots(d)[i].IsUsed() == Slots(b)[i].IsUsed()
    requires forall i: nat :: i < |Slots(b)| && Slots(b)[i].IsUsed() ==>
               HasBytes(d, Slots(d)[i], RecordAt(b, Slots(b)[i]))
    ensures i in Records(d) <==> i in Records(b)
    ensures i in Records(d) ==> Records(d)[i] == Records(b)[i]
  {
    RecordsAre(b, i);
    RecordsAre(d, i);
  }

  lemma RecordsPacked(b: PageBytes, d: PageBytes)
    requires Valid(b) && Valid(d) && |Slots(d)| == |Slots(b)|
    requires forall i: nat :: i < |Slots(b)| ==> Slots(d)[i].IsUsed() == Slots(b)[i].IsUsed()
    requires forall i: nat :: i < |Slots(b)| && Slots(b)[i].IsUsed() ==>
               HasBytes(d, Slots(d)[i], RecordAt(b, Slots(b)[i]))
    ensures Records(d) == Records(b)
  {
    var before, after := Records(b), Records(d);
    forall i: nat
      ensures i in after <==> i in before
      ensures i in after ==> after[i] == before[i]
    {
      RecordPacked(b, d, i);
    }
    EqualMaps(before, after);
  }

  lemma EqualMaps(before: map<nat, seq<Byte>>, after: map<nat, seq<Byte>>)
    requires forall i: nat :: i in after <==> i in before
    requires forall i: nat :: i in after ==> after[i] == before[i]
    ensures after == before
  {
  }

  /** The page `d` comes from `b` by packing: all records are kept under their slots, and all free space is in
      one piece. */
  ghost predicate IsPackingOf(b: PageBytes, d: PageBytes)
    requires Valid(b)
  {
    Valid(d) && Records(d) == Records(b) && NextPage(d) == NextPage(b) && U32(d, COUNT_AT) == U32(b, COUNT_AT)
    && U32(d, FREE_END_AT) + Live(Slots(b)) == PAGE_SIZE
    && forall i: nat :: i < |Slots(b)| ==> Slots(d)[i].IsUsed() == Slots(b)[i].IsUsed()
  }

  /** The gap is cleared and the end of the free space stored. */
  lemma PackingEnds(b: PageBytes, c: PageBytes, c1: PageBytes, d: PageBytes)
    requires Valid(b) && PackedUpTo(b, c, |Slots(b)|)
    requires Elsewhere(c, c1, SlotAt(|Slots(b)|), PAGE_SIZE - Live(Slots(b)))
    requires Elsewhere(c1, d, FREE_END_AT, NEXT_AT) && U32(d, FREE_END_AT) + Live(Slots(b)) == PAGE_SIZE
    ensures IsPackingOf(b, d)
  {
    ClearedSame(c, c1, d, |Slots(b)|, PAGE_SIZE - Live(Slots(b)));
    PackedHeader(b, c, d);
    PackedRest(b, c, d);
    PackedPage(b, d);
  }

  lemma ClearedSame(c: PageBytes, c1: PageBytes, d: PageBytes, count: nat, end: int)
    requires SlotAt(count) <= end <= PAGE_SIZE && Elsewhere(c, c1, SlotAt(count), end)
             && Elsewhere(c1, d, FREE_END_AT, NEXT_AT)
    ensures Same(c, d, 0, FREE_END_AT) && Same(c, d, NEXT_AT, HEADER)
    ensures Same(c, d, HEADER, SlotAt(count)) && Same(c, d, end, PAGE_SIZE)
  {
  }

  lemma PackedPage(b: PageBytes, d: PageBytes)
    requires Valid(b) && HeaderOk(d) && U32(d, COUNT_AT) == U32(b, COUNT_AT) && NextPage(d) == NextPage(b)
    requires U32(d, FREE_END_AT) + Live(Slots(b)) == PAGE_SIZE && Live(Slots(b)) <= PAGE_SIZE - SlotAt(|Slots(b)|)
    requires forall i: nat :: i < |Slots(b)| ==> IsPackedSlot(Slots(b), i, SlotOf(d, i))
    requires forall i: nat :: i < |Slots(b)| && Slots(b)[i].IsUsed() ==>
               HasBytes(d, SlotOf(d, i), RecordAt(b, Slots(b)[i]))
    ensures IsPackingOf(b, d)
  {
    PackedSlots(b, d);
    RecordsPacked(b, d);
  }

  lemma PackedHeader(b: PageBytes, c: PageBytes, d: PageBytes)
    requires HeaderOk(b) && Same(b, c, 0, HEADER) && Same(c, d, 0, FREE_END_AT) && Same(c, d, NEXT_AT, HEADER)
    ensures HeaderOk(d) && U32(d, COUNT_AT) == U32(b, COUNT_AT) && NextPage(d) == NextPage(b)
  {
    SameField(b, d, COUNT_AT, 4);
    SameField(b, d, FREE_START_AT, 4);
    SameConstants(b, d);
  }

  lemma PackedRest(b: PageBytes, c: PageBytes, d: PageBytes)
    requires Valid(b) && PackedUpTo(b, c, |Slots(b)|)
    requires Same(c, d, HEADER, SlotAt(|Slots(b)|)) && Same(c, d, PAGE_SIZE - Live(Slots(b)), PAGE_SIZE)
    ensures forall i: nat :: i < |Slots(b)| ==> IsPackedSlot(Slots(b), i, SlotOf(d, i))
    ensures forall i: nat :: i < |Slots(b)| && Slots(b)[i].IsUsed() ==>
              HasBytes(d, SlotOf(d, i), RecordAt(b, Slots(b)[i]))
  {
    var slots := Slots(b);
    forall i: nat | i < |slots|
      ensures SlotOf(d, i) == SlotOf(c, i)
      ensures slots[i].IsUsed() ==> HasBytes(d, SlotOf(d, i), RecordAt(b, slots[i]))
    {
      SameSlot(c, d, i);
      PackedUntouched(b, c, d, i);
    }
  }

  lemma PackedUntouched(b: PageBytes, c: PageBytes, d: PageBytes, i: nat)
    requires Valid(b) && PackedUpTo(b, c, |Slots(b)|) && i < |Slots(b)| && SlotOf(d, i) == SlotOf(c, i)
    requires Same(c, d, PAGE_SIZE - Live(Slots(b)), PAGE_SIZE)
    ensures Slots(b)[i].IsUsed() ==> HasBytes(d, SlotOf(d, i), RecordAt(b, Slots(b)[i]))
  {
    var slots, m := Slots(b), i + 1;
    var t := SlotOf(c, i);
    assert IsPackedSlot(slots, i, t);
    if slots[i].IsUsed() {
      LiveGrows(slots, m);
      PackedRoom(slots, i, t);
      StillHas(c, d, t, RecordAt(b, slots[i]));
    }
  }

  // ----- the page in place -----

  datatype Status = Done | NotFound | Invalid

  datatype Insertion = InsertedAt(slot: nat) | OutOfSpace | TooLarge | BadPage

  datatype Found = Record(record: seq<Byte>) | NoRecord | BadBytes

  /** Compares a slot with the slots before it. */
  method OverlapsEarlier(b: PageBytes, slot: nat) returns (overlaps: bool)
    requires U32(b, COUNT_AT) <= MAX_SLOTS && slot < U32(b, COUNT_AT)
    ensures overlaps <==> exists i :: 0 <= i < slot && !Apart(Slots(b)[i], Slots(b)[slot])
  {
    var s := SlotOf(b, slot);
    var prior := 0;
    while prior < slot
      invariant 0 <= prior <= slot
      invariant forall i :: 0 <= i < prior ==> Apart(Slots(b)[i], Slots(b)[slot])
    {
      assert Slots(b)[prior] == SlotOf(b, prior);
      if !Apart(SlotOf(b, prior), s) { return true; }
      prior := prior + 1;
    }
    return false;
  }

  /** The first slots are well formed and apart. */
  ghost predicate SlotsOk(slots: seq<Slot>, freeEnd: nat, n: nat)
    requires n <= |slots|
  {
    (forall i :: 0 <= i < n ==> SlotOk(slots[i], freeEnd))
      && (forall i, j :: 0 <= i < j < n ==> Apart(slots[i], slots[j]))
  }

  method CheckSlot(b: PageBytes, slot: nat, freeEnd: nat) returns (ok: bool)
    requires U32(b, COUNT_AT) <= MAX_SLOTS && slot < U32(b, COUNT_AT) && SlotsOk(Slots(b), freeEnd, slot)
    ensures ok <==> SlotsOk(Slots(b), freeEnd, slot + 1)
  {
    assert Slots(b)[slot] == SlotOf(b, slot);
    if !SlotOk(SlotOf(b, slot), freeEnd) { return false; }
    var overlaps := OverlapsEarlier(b, slot);
    return !overlaps;
  }

  /** Accepts exactly the valid pages. */
  method ValidateBytes(b: PageBytes) returns (ok: bool)
    ensures ok == Valid(b)
  {
    if !HeaderOk(b) { return false; }
    var count, freeEnd := U32(b, COUNT_AT), U32(b, FREE_END_AT);
    if U32(b, FREE_START_AT) > freeEnd || freeEnd > PAGE_SIZE { return false; }
    ok := CheckSlots(b, count, freeEnd);
  }

  method CheckSlots(b: PageBytes, count: nat, freeEnd: nat) returns (ok: bool)
    requires count == U32(b, COUNT_AT) <= MAX_SLOTS
    ensures ok <==> SlotsOk(Slots(b), freeEnd, count)
  {
    var slot := 0;
    while slot < count
      invariant 0 <= slot <= count && SlotsOk(Slots(b), freeEnd, slot)
    {
      ok := CheckSlot(b, slot, freeEnd);
      if !ok { return; }
      slot := slot + 1;
    }
    return true;
  }

  /** The first deleted slot, or the slot count. */
  method ReusableSlot(b: PageBytes) returns (slot: nat)
    requires Valid(b)
    ensures slot == FirstDeleted(Slots(b))
  {
    ghost var slots := Slots(b);
    slot := 0;
    assert slots[0..] == slots;
    while slot < U32(b, COUNT_AT)
      invariant slot <= |slots| && FirstDeleted(slots) == slot + FirstDeleted(slots[slot..])
      decreases |slots| - slot
    {
      assert slots[slot] == SlotOf(b, slot);
      if SlotOf(b, slot).state == DELETED { return; }
      assert SlotOk(slots[slot], U32(b, FREE_END_AT));
      slot := slot + 1;
    }
  }

  method ActiveBytes(b: PageBytes) returns (n: nat)
    requires Valid(b)
    ensures n == Live(Slots(b))
  {
    ghost var slots := Slots(b);
    n := 0;
    var slot := 0;
    while slot < U32(b, COUNT_AT)
      invariant 0 <= slot <= |slots| && n == Live(slots[..slot])
    {
      LiveOfOneMore(slots, slot);
      if SlotOf(b, slot).state == USED { n := n + SlotOf(b, slot).length; }
      slot := slot + 1;
    }
    assert slots[..slot] == slots;
  }

  method EnterSlot(a: array<Byte>, i: nat, s: Slot)
    requires a.Length == PAGE_SIZE && i < MAX_SLOTS && FitsU32(s)
    modifies a
    ensures Elsewhere(old(a[..]), a[..], SlotAt(i), SlotAt(i) + SLOT_SIZE) && SlotOf(a[..], i) == s
  {
    StoreField(a, SlotAt(i), s.offset, 4);
    StoreField(a, SlotAt(i) + 4, s.length, 4);
    StoreField(a, SlotAt(i) + 8, s.state, 4);
    assert a[..] == WithSlot(old(a[..]), i, s);
    WithSlotIs(old(a[..]), i, s);
  }

  method EnterHeader(a: array<Byte>, count: nat, freeEnd: nat)
    requires a.Length == PAGE_SIZE && count <= MAX_SLOTS && freeEnd <= PAGE_SIZE
    modifies a
    ensures Elsewhere(old(a[..]), a[..], COUNT_AT, NEXT_AT)
    ensures U32(a[..], COUNT_AT) == count && U32(a[..], FREE_START_AT) == SlotAt(count)
            && U32(a[..], FREE_END_AT) == freeEnd
  {
    StoreField(a, COUNT_AT, count, 4);
    StoreField(a, FREE_START_AT, SlotAt(count), 4);
    StoreField(a, FREE_END_AT, freeEnd, 4);
    assert a[..] == WithHeader(old(a[..]), count, freeEnd);
    WithHeaderIs(old(a[..]), count, freeEnd);
  }

  method EnterRecord(a: array<Byte>, s: Slot, record: seq<Byte>)
    requires a.Length == PAGE_SIZE && s.length == |record| && s.offset + s.length <= PAGE_SIZE
    modifies a
    ensures Elsewhere(old(a[..]), a[..], s.offset, s.offset + s.length) && HasBytes(a[..], s, record)
  {
    CopyTo(a, s.offset, record);
  }

  lemma {:induction false} ZeroLoads(b: seq<Byte>)
    requires forall k :: 0 <= k < |b| ==> b[k] == 0
    ensures Load(b) == 0
  {
    if b != [] { ZeroLoads(b[1..]); }
  }

  lemma Initialized(blank: PageBytes, typed: PageBytes, counted: PageBytes, c: PageBytes, next: nat)
    requires (forall k :: 0 <= k < PAGE_SIZE ==> blank[k] == 0) && 0 < next < Range(4)
    requires typed == Put(blank, TYPE_AT, Store(PAGE_TYPE, 4))
    requires Elsewhere(typed, counted, COUNT_AT, NEXT_AT)
    requires U32(counted, COUNT_AT) == 0 && U32(counted, FREE_START_AT) == HEADER
             && U32(counted, FREE_END_AT) == PAGE_SIZE
    requires c == Put(counted, NEXT_AT, Store(next, 4))
    ensures Valid(c) && Records(c) == map[] && NextPage(c) == next && U32(c, COUNT_AT) == 0
  {
    SmallFits(PAGE_TYPE);
    PutField(blank, TYPE_AT, PAGE_TYPE, 4);
    PutField(counted, NEXT_AT, next, 4);
    SameField(typed, c, TYPE_AT, 4);
    SameField(counted, c, COUNT_AT, 4);
    SameField(counted, c, FREE_START_AT, 4);
    SameField(counted, c, FREE_END_AT, 4);
    ZeroLoads(c[RESERVED_AT..RESERVED_AT + 4]);
    ZeroLoads(c[RESERVED_AT + 4..RESERVED_AT + 8]);
    ZeroLoads(c[RESERVED_AT + 8..RESERVED_AT + 12]);
    EmptyIsValid(c);
  }

  lemma EmptyIsValid(c: PageBytes)
    requires HeaderOk(c) && U32(c, COUNT_AT) == 0 && U32(c, FREE_END_AT) == PAGE_SIZE
    ensures Valid(c) && Records(c) == map[]
  {
    assert Slots(c) == [];
  }

  /** An empty page takes every record that is not too large. */
  lemma EmptyHasRoom(b: PageBytes)
    requires Valid(b) && U32(b, COUNT_AT) == 0
    ensures forall length: nat :: length <= MAX_RECORD ==> Fits(b, length)
  {
    assert Slots(b) == [];
  }

  method Initialize(a: array<Byte>, next: nat) returns (r: Status)
    requires a.Length == PAGE_SIZE && next < Range(4)
    modifies a
    ensures r == if next == 0 then Invalid else Done
    ensures next == 0 ==> a[..] == old(a[..])
    ensures next != 0 ==> Valid(a[..]) && Records(a[..]) == map[] && NextPage(a[..]) == next
    ensures next != 0 ==> forall length :: 0 <= length <= MAX_RECORD ==> Fits(a[..], length)
  {
    if next == 0 { return Invalid; }
    FillZero(a, 0, PAGE_SIZE);
    ghost var blank := a[..];
    StoreField(a, TYPE_AT, PAGE_TYPE, 4);
    ghost var typed := a[..];
    EnterHeader(a, 0, PAGE_SIZE);
    ghost var counted := a[..];
    StoreField(a, NEXT_AT, next, 4);
    Initialized(blank, typed, counted, a[..], next);
    EmptyHasRoom(a[..]);
    return Done;
  }

  /** Where packing puts the next record. */
  lemma NextPacked(slots: seq<Slot>, i: nat, newEnd: nat)
    requires i < |slots| && newEnd + Live(slots[..i]) == PAGE_SIZE && Live(slots) <= PAGE_SIZE
    ensures slots[i].IsUsed() ==>
              slots[i].length <= newEnd && newEnd - slots[i].length + Live(slots[..i + 1]) == PAGE_SIZE
              && IsPackedSlot(slots, i, Slot(newEnd - slots[i].length, slots[i].length, USED))
    ensures !slots[i].IsUsed() ==>
              newEnd + Live(slots[..i + 1]) == PAGE_SIZE && IsPackedSlot(slots, i, Slot(0, 0, DELETED))
  {
    var m := i + 1;
    LiveOfOneMore(slots, i);
    LiveGrows(slots, m);
  }

  method PackUsed(a: array<Byte>, b: PageBytes, slot: nat, s: Slot, t: Slot)
    requires a.Length == PAGE_SIZE && Valid(b) && slot < |Slots(b)| && PackedUpTo(b, a[..], slot)
    requires s == Slots(b)[slot] && s.IsUsed() && t.IsUsed() && t.length == s.length && IsPackedSlot(Slots(b), slot, t)
    modifies a
    ensures PackedUpTo(b, a[..], slot + 1)
  {
    ghost var before := a[..];
    assert SlotOk(s, U32(b, FREE_END_AT));
    PackedRoom(Slots(b), slot, t);
    EnterRecord(a, t, RecordAt(b, s));
    ghost var copied := a[..];
    EnterSlot(a, slot, t);
    PackingGoesOn(b, before, copied, a[..], slot, t);
  }

  /** One round of packing: the record of one slot moves, and its slot is rewritten. */
  method PackOne(a: array<Byte>, b: PageBytes, slot: nat, newEnd: nat) returns (end: nat)
    requires a.Length == PAGE_SIZE && Valid(b) && slot < |Slots(b)| && PackedUpTo(b, a[..], slot)
    requires newEnd + Live(Slots(b)[..slot]) == PAGE_SIZE
    modifies a
    ensures PackedUpTo(b, a[..], slot + 1) && end + Live(Slots(b)[..slot + 1]) == PAGE_SIZE
  {
    var s := SlotOf(b, slot);
    ghost var before := a[..];
    assert Slots(b)[slot] == s;
    NextPacked(Slots(b), slot, newEnd);
    if s.state == USED {
      end := newEnd - s.length;
      PackUsed(a, b, slot, s, Slot(end, s.length, USED));
    } else {
      end := newEnd;
      EnterSlot(a, slot, Slot(0, 0, DELETED));
      PackingGoesOn(b, before, before, a[..], slot, Slot(0, 0, DELETED));
    }
  }

  /** Moves all records to the end of the page, from a copy of the old bytes. */
  method Compact(a: array<Byte>) returns (r: Status)
    requires a.Length == PAGE_SIZE
    modifies a
    ensures r == if Valid(old(a[..])) then Done else Invalid
    ensures r.Invalid? ==> a[..] == old(a[..])
    ensures r.Done? ==> IsPackingOf(old(a[..]), a[..])
  {
    var b := a[..];
    var ok := ValidateBytes(b);
    if !ok { return Invalid; }
    var count, freeStart := U32(b, COUNT_AT), U32(b, FREE_START_AT);
    var newEnd: nat := PAGE_SIZE;
    PackingStarts(b);
    var slot: nat := 0;
    while slot < count
      invariant slot <= count && PackedUpTo(b, a[..], slot) && newEnd + Live(Slots(b)[..slot]) == PAGE_SIZE
    {
      newEnd := PackOne(a, b, slot, newEnd);
      slot := slot + 1;
    }
    assert Slots(b)[..slot] == Slots(b);
    ghost var packed := a[..];
    FillZero(a, freeStart, newEnd);
    ghost var cleared := a[..];
    StoreField(a, FREE_END_AT, newEnd, 4);
    SmallFits(newEnd);
    PutField(cleared, FREE_END_AT, newEnd, 4);
    PackingEnds(b, packed, cleared, a[..]);
    return Done;
  }

  // ----- inserting, reading and deleting in place -----

  /** Whether the record fits once all free space is in one piece. */
  predicate Fits(b: PageBytes, length: nat)
    requires Valid(b)
  {
    var slots := Slots(b);
    var directory := if FirstDeleted(slots) == |slots| then SLOT_SIZE else 0;
    length + directory <= PAGE_SIZE - SlotAt(|slots|) - Live(slots)
  }

  predicate HasContiguousSpace(b: PageBytes, target: nat, length: nat) {
    SlotAt(CountWith(b, target)) <= U32(b, FREE_END_AT) && length <= U32(b, FREE_END_AT) - SlotAt(CountWith(b, target))
  }

  lemma {:induction false} FirstDeletedIs(slots: seq<Slot>, i: nat)
    requires i <= |slots| && (i < |slots| ==> !slots[i].IsUsed())
    requires forall j: nat :: j < i ==> slots[j].IsUsed()
    ensures FirstDeleted(slots) == i
  {
    if slots != [] && slots[0].IsUsed() { FirstDeletedIs(slots[1..], i - 1); }
  }

  /** When the record fits at all, packing makes room for it, in the same slot. */
  lemma PackingMakesRoom(b: PageBytes, d: PageBytes, length: nat)
    requires Valid(b) && IsPackingOf(b, d) && Fits(b, length)
    ensures FirstDeleted(Slots(d)) == FirstDeleted(Slots(b))
    ensures HasRoom(d, FirstDeleted(Slots(b)), length)
  {
    FirstDeletedIs(Slots(d), FirstDeleted(Slots(b)));
  }

  /** A record that lies in one piece of free space fits: so running out of contiguous space is no reason to
      refuse it, and a full directory is never the only reason. */
  lemma ContiguousFits(b: PageBytes, length: nat)
    requires Valid(b) && HasContiguousSpace(b, FirstDeleted(Slots(b)), length)
    ensures Fits(b, length) && HasRoom(b, FirstDeleted(Slots(b)), length)
  {
    LiveFits(Slots(b), U32(b, FREE_END_AT));
  }

  method PlaceRecord(a: array<Byte>, target: nat, record: seq<Byte>)
    requires a.Length == PAGE_SIZE && Valid(a[..]) && HasRoom(a[..], target, |record|)
    modifies a
    ensures Valid(a[..]) && Records(a[..]) == Records(old(a[..]))[target := record]
    ensures NextPage(a[..]) == NextPage(old(a[..])) && U32(a[..], COUNT_AT) == CountWith(old(a[..]), target)
  {
    var b: PageBytes := a[..];
    var s := Slot(U32(b, FREE_END_AT) - |record|, |record|, USED);
    var count := CountWith(b, target);
    EnterRecord(a, s, record);
    ghost var b1 := a[..];
    EnterSlot(a, target, s);
    ghost var b2 := a[..];
    EnterHeader(a, count, s.offset);
    InsertedIs(b, b1, b2, a[..], target, s, record);
  }

  /** The record goes to the first deleted slot or to a new one, and is refused only when the page as a whole
      has no room for it; no other record changes. */
  method InsertRecord(a: array<Byte>, record: seq<Byte>) returns (r: Insertion)
    requires a.Length == PAGE_SIZE
    modifies a
    ensures var b := old(a[..]);
            r == if !Valid(b) || |record| > 0xFFFF_FFFF then BadPage
                 else if |record| > MAX_RECORD then TooLarge
                 else if !Fits(b, |record|) then OutOfSpace
                 else InsertedAt(FirstDeleted(Slots(b)))
    ensures !r.InsertedAt? ==> a[..] == old(a[..])
    ensures r.InsertedAt? ==>
              Valid(a[..]) && Records(a[..]) == Records(old(a[..]))[r.slot := record]
              && r.slot !in Records(old(a[..])) && NextPage(a[..]) == NextPage(old(a[..]))
  {
    var b: PageBytes := a[..];
    var ok := ValidateBytes(b);
    if !ok || |record| > 0xFFFF_FFFF { return BadPage; }
    if |record| > MAX_RECORD { return TooLarge; }
    var target := ReusableSlot(b);
    var active := ActiveBytes(b);
    LiveFits(Slots(b), U32(b, FREE_END_AT));
    var count := U32(b, COUNT_AT);
    var required := |record| + (if target == count then SLOT_SIZE else 0);
    if required > PAGE_SIZE - U32(b, FREE_START_AT) - active { return OutOfSpace; }
    assert Fits(b, |record|);
    if !HasContiguousSpace(b, target, |record|) {
      var status := Compact(a);
      PackingMakesRoom(b, a[..], |record|);
    } else {
      ContiguousFits(b, |record|);
    }
    RecordsAre(b, target);
    PlaceRecord(a, target, record);
    return InsertedAt(target);
  }

  method SlotCount(b: PageBytes) returns (n: nat)
    requires Valid(b)
    ensures forall slot :: slot in Records(b) ==> slot < n
  {
    n := U32(b, COUNT_AT);
    forall slot | slot in Records(b) ensures slot < n { RecordsAre(b, slot); }
  }

  method GetRecord(b: PageBytes, slot: nat) returns (r: Found)
    ensures r == if !Valid(b) then BadBytes else if slot in Records(b) then Record(Records(b)[slot]) else NoRecord
  {
    var ok := ValidateBytes(b);
    if !ok { return BadBytes; }
    RecordsAre(b, slot);
    if slot >= U32(b, COUNT_AT) { return NoRecord; }
    var s := SlotOf(b, slot);
    assert Slots(b)[slot] == s;
    if s.state != USED { return NoRecord; }
    return Record(RecordAt(b, s));
  }

  /** The page `c` holds what `b` holds but one record. */
  ghost predicate IsWithout(b: PageBytes, c: PageBytes, slot: nat) {
    Valid(b) && Valid(c) && Records(c) == Records(b) - {slot} && NextPage(c) == NextPage(b)
  }

  method DeleteRecord(a: array<Byte>, slot: nat) returns (r: Status)
    requires a.Length == PAGE_SIZE
    modifies a
    ensures var b := old(a[..]);
            r == if !Valid(b) then Invalid else if slot in Records(b) then Done else NotFound
    ensures !r.Done? ==> a[..] == old(a[..])
    ensures r.Done? ==> IsWithout(old(a[..]), a[..], slot)
  {
    var b: PageBytes := a[..];
    var ok := ValidateBytes(b);
    if !ok { return Invalid; }
    RecordsAre(b, slot);
    if slot >= U32(b, COUNT_AT) { return NotFound; }
    assert Slots(b)[slot] == SlotOf(b, slot);
    if SlotOf(b, slot).state != USED { return NotFound; }
    EnterSlot(a, slot, Slot(0, 0, DELETED));
    DeletedIs(b, a[..], slot);
    return Done;
  }

  method SetNextPageId(a: array<Byte>, next: nat) returns (r: Status)
    requires a.Length == PAGE_SIZE && next < Range(4)
    modifies a
    ensures r == if next != 0 && Valid(old(a[..])) then Done else Invalid
    ensures r.Invalid? ==> a[..] == old(a[..])
    ensures r.Done? ==> Valid(a[..]) && Records(a[..]) == Records(old(a[..])) && NextPage(a[..]) == next
  {
    var b: PageBytes := a[..];
    if next == 0 { return Invalid; }
    var ok := ValidateBytes(b);
    if !ok { return Invalid; }
    StoreField(a, NEXT_AT, next, 4);
    Relinked(b, a[..], next);
    return Done;
  }

  lemma Relinked(b: PageBytes, c: PageBytes, next: nat)
    requires Valid(b) && 0 < next < Range(4) && c == Put(b, NEXT_AT, Store(next, 4))
    ensures Valid(c) && Records(c) == Records(b) && NextPage(c) == next
  {
    PutField(b, NEXT_AT, next, 4);
    SameField(b, c, TYPE_AT, 4);
    SameField(b, c, COUNT_AT, 4);
    SameField(b, c, FREE_START_AT, 4);
    SameField(b, c, FREE_END_AT, 4);
    SameField(b, c, RESERVED_AT, 4);
    SameField(b, c, RESERVED_AT + 4, 4);
    SameField(b, c, RESERVED_AT + 8, 4);
    forall i: nat | i < |Slots(b)| ensures SlotOf(c, i) == SlotOf(b, i) {
      SameSlot(b, c, i);
    }
    assert Slots(c) == Slots(b);
    forall i: nat | i < |Slots(b)| && Slots(b)[i].IsUsed() ensures HasBytes(c, Slots(c)[i], RecordAt(b, Slots(b)[i])) {
      SameRecord(b, c, Slots(b)[i], U32(b, FREE_END_AT));
    }
    RecordsPacked(b, c);
  }
}
