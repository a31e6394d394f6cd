/** A table's rows on a chain of pages, as values: what adding and removing records and pages does to them. */
module HeapChain {
  import opened Bytes

  /** The last page of a chain points to this page number. */
  const NO_PAGE: nat := 0xffff_ffff

  datatype Rid = Rid(page: nat, slot: nat)

  datatype Content = Content(records: map<nat, seq<Byte>>, next: nat)

  type Pages = map<nat, Content>

  predicate IsPageId(p: nat) { 0 < p < NO_PAGE }

  function Successor(chain: seq<nat>, i: nat): nat
    requires i < |chain|
  {
    if i + 1 < |chain| then chain[i + 1] else NO_PAGE
  }

  /** Page `i` of the chain points to the next one, and is empty only if it is the first. */
  ghost predicate LinkOk(pages: Pages, chain: seq<nat>, i: nat)
    requires i < |chain|
  {
    && IsPageId(chain[i]) && chain[i] in pages && pages[chain[i]].next == Successor(chain, i)
    && (i > 0 ==> pages[chain[i]].records != map[])
  }

  ghost predicate Distinct(chain: seq<nat>) { forall i, j :: 0 <= i < j < |chain| ==> chain[i] != chain[j] }

  /** The pages form a chain without a cycle. */
  ghost predicate ChainOk(pages: Pages, chain: seq<nat>) {
    && chain != [] && Distinct(chain)
    && (forall i :: 0 <= i < |chain| ==> LinkOk(pages, chain, i))
    && (forall p :: p in chain ==> p in pages)
  }

  lemma LinkIs(pages: Pages, chain: seq<nat>, i: nat)
    requires ChainOk(pages, chain) && i < |chain|
    ensures chain[i] in pages && pages[chain[i]].next == Successor(chain, i) && 0 < Successor(chain, i) <= NO_PAGE
    ensures Successor(chain, i) == NO_PAGE <==> i + 1 == |chain|
  {
    assert LinkOk(pages, chain, i);
    if i + 1 < |chain| {
      var next := i + 1;
      assert LinkOk(pages, chain, next);
    }
  }

  lemma PagesAreReal(pages: Pages, chain: seq<nat>)
    requires ChainOk(pages, chain)
    ensures forall i :: 0 <= i < |chain| ==> IsPageId(chain[i])
  {
    forall i | 0 <= i < |chain| ensures IsPageId(chain[i]) { assert LinkOk(pages, chain, i); }
  }

  ghost predicate HasRow(pages: Pages, chain: seq<nat>, rid: Rid) {
    rid.page in chain && rid.page in pages && rid.slot in pages[rid.page].records
  }

  ghost function Record(pages: Pages, rid: Rid): seq<Byte>
    requires rid.page in pages && rid.slot in pages[rid.page].records
  {
    pages[rid.page].records[rid.slot]
  }

  /** The rows are those of before but for one row identifier. */
  ghost predicate RowsSame(pages: Pages, chain: seq<nat>, pages': Pages, chain': seq<nat>, except: Rid) {
    forall rid :: rid != except ==>
      (HasRow(pages', chain', rid) <==> HasRow(pages, chain, rid))
      && (HasRow(pages, chain, rid) ==> Record(pages', rid) == Record(pages, rid))
  }

  // ----- one page changed -----

  lemma RecordAdded(pages: Pages, chain: seq<nat>, p: nat, slot: nat, record: seq<Byte>)
    requires ChainOk(pages, chain) && p in chain
    ensures var pages' := pages[p := pages[p].(records := pages[p].records[slot := record])];
            ChainOk(pages', chain) && RowsSame(pages, chain, pages', chain, Rid(p, slot))
            && HasRow(pages', chain, Rid(p, slot)) && Record(pages', Rid(p, slot)) == record
  {
    assert slot in pages[p].records[slot := record];
    var pages' := pages[p := pages[p].(records := pages[p].records[slot := record])];
    forall i | 0 <= i < |chain| ensures LinkOk(pages', chain, i) { assert LinkOk(pages, chain, i); }
  }

  lemma RecordRemoved(pages: Pages, chain: seq<nat>, p: nat, slot: nat)
    requires ChainOk(pages, chain) && p in chain && (p == chain[0] || pages[p].records - {slot} != map[])
    ensures var pages' := pages[p := pages[p].(records := pages[p].records - {slot})];
            ChainOk(pages', chain) && RowsSame(pages, chain, pages', chain, Rid(p, slot))
            && !HasRow(pages', chain, Rid(p, slot))
  {
    var pages' := pages[p := pages[p].(records := pages[p].records - {slot})];
    forall i | 0 <= i < |chain| ensures LinkOk(pages', chain, i) {
      assert LinkOk(pages, chain, i);
      if i > 0 && chain[i] == p { assert p != chain[0]; }
    }
  }

  // ----- a page more, and a page less -----

  function Linked(pages: Pages, last: nat, p: nat, content: Content): Pages
    requires last in pages
  {
    pages[p := content][last := pages[last].(next := p)]
  }

  lemma PageAppended(pages: Pages, chain: seq<nat>, p: nat, slot: nat, record: seq<Byte>)
    requires ChainOk(pages, chain) && IsPageId(p) && p !in chain
    ensures var last := chain[|chain| - 1];
            var pages', chain' := Linked(pages, last, p, Content(map[slot := record], NO_PAGE)), chain + [p];
            ChainOk(pages', chain') && RowsSame(pages, chain, pages', chain', Rid(p, slot))
            && !HasRow(pages, chain, Rid(p, slot)) && HasRow(pages', chain', Rid(p, slot))
              && Record(pages', Rid(p, slot)) == record
  {
    var n := |chain| - 1;
    var last := chain[n];
    var content, chain' := Content(map[slot := record], NO_PAGE), chain + [p];
    var pages' := Linked(pages, last, p, content);
    assert slot in content.records;
    forall i | 0 <= i < |chain'| ensures LinkOk(pages', chain', i) {
      if i < |chain| { assert LinkOk(pages, chain, i); }
      assert i < n ==> chain[i] != last && Successor(chain', i) == Successor(chain, i);
    }
    forall rid | rid != Rid(p, slot) ensures HasRow(pages', chain', rid) <==> HasRow(pages, chain, rid) {
      if rid.page in chain { assert rid.page != p; }
    }
  }

  function Without(chain: seq<nat>, i: nat): seq<nat>
    requires i < |chain|
  {
    chain[..i] + chain[i + 1..]
  }

  lemma InWithout(chain: seq<nat>, i: nat, p: nat)
    requires i < |chain| && Distinct(chain)
    ensures p in Without(chain, i) <==> p in chain && p != chain[i]
  {
    if p in chain {
      var k :| 0 <= k < |chain| && chain[k] == p;
      if k < i { assert Without(chain, i)[k] == p; }
      if k > i { assert Without(chain, i)[k - 1] == p; }
    }
  }

  /** A page whose last record goes is taken out of the chain, unless it is the first. */
  lemma PageUnlinked(pages: Pages, chain: seq<nat>, i: nat, slot: nat)
    requires ChainOk(pages, chain) && 0 < i < |chain| && pages[chain[i]].records.Keys == {slot}
    ensures var before, p := chain[i - 1], chain[i];
            var pages', chain' := pages[before := pages[before].(next := pages[p].next)], Without(chain, i);
            ChainOk(pages', chain') && RowsSame(pages, chain, pages', chain', Rid(p, slot))
            && !HasRow(pages', chain', Rid(p, slot)) && chain'[0] == chain[0]
  {
    UnlinkedChain(pages, chain, i);
    UnlinkedRows(pages, chain, i, slot);
  }

  lemma UnlinkedChain(pages: Pages, chain: seq<nat>, i: nat)
    requires ChainOk(pages, chain) && 0 < i < |chain|
    ensures var before, p := chain[i - 1], chain[i];
            ChainOk(pages[before := pages[before].(next := pages[p].next)], Without(chain, i))
  {
    var m, p := i - 1, chain[i];
    var before := chain[m];
    var pages', chain' := pages[before := pages[before].(next := pages[p].next)], Without(chain, i);
    forall k | 0 <= k < |chain'| ensures LinkOk(pages', chain', k) {
      var was := if k < i then k else k + 1;
      assert LinkOk(pages, chain, was) && LinkOk(pages, chain, i);
      assert chain'[k] == chain[was] && (chain[was] == before <==> was == m);
      if was != m { assert Successor(chain', k) == Successor(chain, was); }
    }
  }

  lemma UnlinkedRows(pages: Pages, chain: seq<nat>, i: nat, slot: nat)
    requires ChainOk(pages, chain) && 0 < i < |chain| && pages[chain[i]].records.Keys == {slot}
    ensures var before, p := chain[i - 1], chain[i];
            var pages', chain' := pages[before := pages[before].(next := pages[p].next)], Without(chain, i);
            RowsSame(pages, chain, pages', chain', Rid(p, slot)) && !HasRow(pages', chain', Rid(p, slot))
  {
    var before, p := chain[i - 1], chain[i];
    var pages', chain' := pages[before := pages[before].(next := pages[p].next)], Without(chain, i);
    forall rid | rid != Rid(p, slot)
      ensures HasRow(pages', chain', rid) <==> HasRow(pages, chain, rid)
      ensures HasRow(pages, chain, rid) ==> Record(pages', rid) == Record(pages, rid)
    {
      InWithout(chain, i, rid.page);
    }
    InWithout(chain, i, p);
  }

  // ----- the table as a value, whatever a page is -----

  /** The pages, what they hold, the chain, and the records by row identifier. */
  datatype Heap<+P> = Heap(pages: map<nat, P>, view: Pages, chain: seq<nat>, stored: map<Rid, seq<Byte>>)

  ghost predicate StoredOk(view: Pages, chain: seq<nat>, stored: map<Rid, seq<Byte>>) {
    && (forall rid :: HasRow(view, chain, rid) <==> rid in stored)
    && (forall rid :: rid in stored ==> HasRow(view, chain, rid) && Record(view, rid) == stored[rid])
  }

  ghost predicate PagesShow<P(!new)>(shows: (P, Content) -> bool, pages: map<nat, P>, view: Pages) {
    forall p :: p in view ==> p in pages && shows(pages[p], view[p])
  }

  ghost predicate HeapOk<P(!new)>(shows: (P, Content) -> bool, h: Heap<P>, first: nat) {
    PagesShow(shows, h.pages, h.view) && ChainOk(h.view, h.chain) && h.chain[0] == first
      && StoredOk(h.view, h.chain, h.stored)
  }

  lemma StoredGrows(view: Pages, chain: seq<nat>, view': Pages, chain': seq<nat>, stored: map<Rid, seq<Byte>>,
                    rid: Rid, b: seq<Byte>)
    requires StoredOk(view, chain, stored) && RowsSame(view, chain, view', chain', rid)
    requires HasRow(view', chain', rid) && Record(view', rid) == b
    ensures StoredOk(view', chain', stored[rid := b])
  {
  }

  lemma StoredShrinks(view: Pages, chain: seq<nat>, view': Pages, chain': seq<nat>, stored: map<Rid, seq<Byte>>,
                      rid: Rid)
    requires StoredOk(view, chain, stored) && RowsSame(view, chain, view', chain', rid) && !HasRow(view', chain', rid)
    ensures StoredOk(view', chain', stored - {rid})
  {
  }

  function WithRecord<P>(h: Heap<P>, p: nat, slot: nat, page: P, b: seq<Byte>): Heap<P>
    requires p in h.view
  {
    h.(pages := h.pages[p := page],
       view := h.view[p := h.view[p].(records := h.view[p].records[slot := b])],
       stored := h.stored[Rid(p, slot) := b])
  }

  lemma WithRecordOk<P(!new)>(shows: (P, Content) -> bool, h: Heap<P>, first: nat, p: nat, slot: nat, page: P,
                       b: seq<Byte>)
    requires HeapOk(shows, h, first) && p in h.chain && slot !in h.view[p].records
    requires shows(page, h.view[p].(records := h.view[p].records[slot := b]))
    ensures HeapOk(shows, WithRecord(h, p, slot, page, b), first) && Rid(p, slot) !in h.stored
  {
    RecordAdded(h.view, h.chain, p, slot, b);
    StoredGrows(h.view, h.chain, WithRecord(h, p, slot, page, b).view, h.chain, h.stored, Rid(p, slot), b);
    assert !HasRow(h.view, h.chain, Rid(p, slot));
  }

  function WithPage<P>(h: Heap<P>, last: nat, linked: P, p: nat, page: P, slot: nat, b: seq<Byte>): Heap<P>
    requires last in h.view
  {
    Heap(h.pages[p := page][last := linked], Linked(h.view, last, p, Content(map[slot := b], NO_PAGE)), h.chain + [p],
         h.stored[Rid(p, slot) := b])
  }

  lemma WithPageOk<P(!new)>(shows: (P, Content) -> bool, h: Heap<P>, first: nat, linked: P, p: nat, page: P, slot: nat,
                     b: seq<Byte>)
    requires HeapOk(shows, h, first) && IsPageId(p) && p !in h.chain
    requires shows(page, Content(map[slot := b], NO_PAGE)) && shows(linked, h.view[h.chain[|h.chain| - 1]].(next := p))
    ensures HeapOk(shows, WithPage(h, h.chain[|h.chain| - 1], linked, p, page, slot, b), first)
            && Rid(p, slot) !in h.stored
  {
    PageAppended(h.view, h.chain, p, slot, b);
    var h' := WithPage(h, h.chain[|h.chain| - 1], linked, p, page, slot, b);
    StoredGrows(h.view, h.chain, h'.view, h'.chain, h.stored, Rid(p, slot), b);
  }

  function WithoutRecord<P>(h: Heap<P>, p: nat, slot: nat, page: P): Heap<P>
    requires p in h.view
  {
    h.(pages := h.pages[p := page],
       view := h.view[p := h.view[p].(records := h.view[p].records - {slot})],
       stored := h.stored - {Rid(p, slot)})
  }

  lemma WithoutRecordOk<P(!new)>(shows: (P, Content) -> bool, h: Heap<P>, first: nat, p: nat, slot: nat, page: P)
    requires HeapOk(shows, h, first) && p in h.chain && (p == first || h.view[p].records - {slot} != map[])
    requires shows(page, h.view[p].(records := h.view[p].records - {slot}))
    ensures HeapOk(shows, WithoutRecord(h, p, slot, page), first)
  {
    RecordRemoved(h.view, h.chain, p, slot);
    StoredShrinks(h.view, h.chain, WithoutRecord(h, p, slot, page).view, h.chain, h.stored, Rid(p, slot));
  }

  /** The page whose last record goes leaves the chain; its predecessor points past it. */
  function WithoutPage<P>(h: Heap<P>, i: nat, slot: nat, page: P, before: P): Heap<P>
    requires 0 < i < |h.chain| && h.chain[i - 1] in h.view && h.chain[i] in h.view
  {
    var q, p := h.chain[i - 1], h.chain[i];
    Heap(h.pages[p := page][q := before], h.view[q := h.view[q].(next := h.view[p].next)] - {p}, Without(h.chain, i),
         h.stored - {Rid(p, slot)})
  }

  lemma LeaveOut(view: Pages, chain: seq<nat>, p: nat)
    requires ChainOk(view, chain) && p !in chain
    ensures ChainOk(view - {p}, chain) && forall rid :: HasRow(view - {p}, chain, rid) <==> HasRow(view, chain, rid)
  {
    forall i | 0 <= i < |chain| ensures LinkOk(view - {p}, chain, i) { assert LinkOk(view, chain, i); }
  }

  lemma WithoutPageOk<P(!new)>(shows: (P, Content) -> bool, h: Heap<P>, first: nat, i: nat, slot: nat, page: P,
                        before: P)
    requires HeapOk(shows, h, first) && 0 < i < |h.chain| && h.view[h.chain[i]].records.Keys == {slot}
    requires shows(before, h.view[h.chain[i - 1]].(next := h.view[h.chain[i]].next))
    ensures HeapOk(shows, WithoutPage(h, i, slot, page, before), first)
  {
    var q, p, h' := h.chain[i - 1], h.chain[i], WithoutPage(h, i, slot, page, before);
    var view := h.view[q := h.view[q].(next := h.view[p].next)];
    PageUnlinked(h.view, h.chain, i, slot);
    InWithout(h.chain, i, p);
    LeaveOut(view, h'.chain, p);
    StoredShrinks(h.view, h.chain, view, h'.chain, h.stored, Rid(p, slot));
  }
}
