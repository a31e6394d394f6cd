/** The directory of a slotted page as numbers: where each record lies and how much room is left. */
module SlottedLayout {
  import opened Bytes

  const HEADER: nat := 32
  const SLOT_SIZE: nat := 12
  const MAX_SLOTS: nat := (PAGE_SIZE - HEADER) / SLOT_SIZE
  const MAX_RECORD: nat := PAGE_SIZE - HEADER - SLOT_SIZE
  const DELETED: nat := 0
  const USED: nat := 1

  datatype Slot = Slot(offset: nat, length: nat, state: nat) {
    predicate IsUsed() { state == USED }
  }

  /** Where slot `i` starts in the page; with the slot count, where the free space starts. */
  function SlotAt(i: nat): nat { HEADER + SLOT_SIZE * i }

  predicate SlotOk(s: Slot, freeEnd: nat) {
    if s.state == DELETED then s.offset == 0 && s.length == 0
    else s.state == USED && freeEnd <= s.offset && s.offset + s.length <= PAGE_SIZE
  }

  predicate Apart(s: Slot, t: Slot) {
    s.IsUsed() && t.IsUsed() ==> t.offset + t.length <= s.offset || s.offset + s.length <= t.offset
  }

  /** The free space lies between the directory and the records, and no two records overlap. */
  predicate LayoutOk(slots: seq<Slot>, freeEnd: nat) {
    SlotAt(|slots|) <= freeEnd <= PAGE_SIZE
    && (forall i :: 0 <= i < |slots| ==> SlotOk(slots[i], freeEnd))
    && (forall i, j :: 0 <= i < j < |slots| ==> Apart(slots[i], slots[j]))
  }

  /** The bytes that records take up. */
  function Live(slots: seq<Slot>): nat {
    if slots == [] then 0
    else
      var n := |slots| - 1;
      Live(slots[..n]) + (if slots[n].IsUsed() then slots[n].length else 0)
  }

  function FirstDeleted(slots: seq<Slot>): (i: nat)
    ensures i <= |slots| && (i < |slots| ==> !slots[i].IsUsed())
    ensures forall j :: 0 <= j < i ==> slots[j].IsUsed()
  {
    if slots == [] then 0 else if !slots[0].IsUsed() then 0 else 1 + FirstDeleted(slots[1..])
  }

  // ----- records that do not overlap fit between their bounds -----

  function Cells(lo: nat, hi: nat): (s: set<nat>)
    requires lo <= hi
    ensures |s| == hi - lo
    ensures forall k :: k in s <==> lo <= k < hi
    decreases hi - lo
  {
    if lo == hi then {} else Cells(lo, hi - 1) + {hi - 1}
  }

  /** The byte positions covered by the first slots' records. */
  function Covered(slots: seq<Slot>): set<nat> {
    if slots == [] then {}
    else
      var n := |slots| - 1;
      var last := slots[n];
      Covered(slots[..n]) + (if last.IsUsed() then Cells(last.offset, last.offset + last.length) else {})
  }

  predicate Holds(s: Slot, k: nat) { s.IsUsed() && s.offset <= k < s.offset + s.length }

  lemma {:induction false} Holder(slots: seq<Slot>, k: nat) returns (i: nat)
    requires k in Covered(slots)
    ensures i < |slots| && Holds(slots[i], k)
  {
    var n := |slots| - 1;
    if Holds(slots[n], k) { i := n; } else { i := Holder(slots[..n], k); }
  }

  lemma LastIsApart(slots: seq<Slot>, k: nat)
    requires slots != [] && forall i, j :: 0 <= i < j < |slots| ==> Apart(slots[i], slots[j])
    requires k in Covered(slots[..|slots| - 1])
    ensures !Holds(slots[|slots| - 1], k)
  {
    var i := Holder(slots[..|slots| - 1], k);
    assert Apart(slots[i], slots[|slots| - 1]);
  }

  lemma UnionIsSum(a: set<nat>, b: set<nat>)
    requires forall k :: k in a ==> k !in b
    ensures |a + b| == |a| + |b|
  {
    assert a !! b;
  }

  lemma {:induction false} LiveIsCovered(slots: seq<Slot>)
    requires forall i, j :: 0 <= i < j < |slots| ==> Apart(slots[i], slots[j])
    ensures |Covered(slots)| == Live(slots)
  {
    if slots != [] {
      var n := |slots| - 1;
      var front, last := slots[..n], slots[n];
      assert forall i, j :: 0 <= i < j < n ==> Apart(front[i], front[j]);
      LiveIsCovered(front);
      if last.IsUsed() {
        var cells := Cells(last.offset, last.offset + last.length);
        forall k | k in Covered(front) ensures k !in cells {
          LastIsApart(slots, k);
        }
        UnionIsSum(Covered(front), cells);
      }
    }
  }

  /** Together the records never take more than the part of the page they lie in. */
  lemma LiveFits(slots: seq<Slot>, freeEnd: nat)
    requires LayoutOk(slots, freeEnd)
    ensures Live(slots) <= PAGE_SIZE - freeEnd
  {
    LiveIsCovered(slots);
    var room := Cells(freeEnd, PAGE_SIZE);
    forall k | k in Covered(slots) ensures k in room {
      var i := Holder(slots, k);
      assert SlotOk(slots[i], freeEnd);
    }
    SubsetIsSmaller(Covered(slots), room);
  }

  lemma SubsetIsSmaller(a: set<nat>, b: set<nat>)
    requires a <= b
    ensures |a| <= |b|
  {
    assert b == a + (b - a);
  }

  lemma {:induction false} LiveGrows(slots: seq<Slot>, i: nat)
    requires i <= |slots|
    ensures Live(slots[..i]) <= Live(slots)
    decreases |slots|
  {
    if i == |slots| {
      assert slots[..i] == slots;
    } else {
      var n := |slots| - 1;
      assert slots[..n][..i] == slots[..i];
      LiveGrows(slots[..n], i);
    }
  }

  // ----- inserting and deleting -----

  /** The slot for a record laid just below the free space's end, put in the directory. */
  function Placed(slots: seq<Slot>, target: nat, s: Slot): (r: seq<Slot>)
    requires target <= |slots|
    ensures |r| == if target == |slots| then |slots| + 1 else |slots|
    ensures r[target] == s && forall i :: 0 <= i < |slots| && i != target ==> r[i] == slots[i]
  {
    if target == |slots| then slots + [s] else slots[target := s]
  }

  lemma PlacedOk(slots: seq<Slot>, freeEnd: nat, target: nat, length: nat)
    requires LayoutOk(slots, freeEnd) && target <= |slots|
    requires SlotAt(if target == |slots| then |slots| + 1 else |slots|) + length <= freeEnd
    ensures LayoutOk(Placed(slots, target, Slot(freeEnd - length, length, USED)), freeEnd - length)
  {
    var s := Slot(freeEnd - length, length, USED);
    var r := Placed(slots, target, s);
    forall i | 0 <= i < |slots| ensures Apart(s, slots[i]) && Apart(slots[i], s) {
      assert SlotOk(slots[i], freeEnd);
    }
    forall i, j | 0 <= i < j < |r| ensures Apart(r[i], r[j]) {
      if i != target && j != target { assert Apart(slots[i], slots[j]); }
    }
  }

  lemma DeletedOk(slots: seq<Slot>, freeEnd: nat, target: nat)
    requires LayoutOk(slots, freeEnd) && target < |slots|
    ensures LayoutOk(slots[target := Slot(0, 0, DELETED)], freeEnd)
  {
    var r := slots[target := Slot(0, 0, DELETED)];
    forall i, j | 0 <= i < j < |r| ensures Apart(r[i], r[j]) {
      if i != target && j != target { assert Apart(slots[i], slots[j]); }
    }
  }

  // ----- packing -----

  /** Where packing puts slot `i`: below the records of the slots before it, at the end of the page. */
  function PackedSlot(slots: seq<Slot>, i: nat): Slot
    requires i < |slots| && Live(slots[..i + 1]) <= PAGE_SIZE
  {
    if slots[i].IsUsed() then Slot(PAGE_SIZE - Live(slots[..i + 1]), slots[i].length, USED) else Slot(0, 0, DELETED)
  }

  lemma LiveOfOneMore(slots: seq<Slot>, i: nat)
    requires i < |slots|
    ensures Live(slots[..i + 1]) == Live(slots[..i]) + (if slots[i].IsUsed() then slots[i].length else 0)
  {
    var m := i + 1;
    assert slots[..m][..i] == slots[..i];
  }

  lemma LiveIsMonotone(slots: seq<Slot>, i: nat, j: nat)
    requires i <= j <= |slots|
    ensures Live(slots[..i]) <= Live(slots[..j])
  {
    assert slots[..j][..i] == slots[..i];
    LiveGrows(slots[..j], i);
  }

  /** Packed slots, each where packing puts it. */
  ghost predicate IsPacked(slots: seq<Slot>, packed: seq<Slot>) {
    |packed| == |slots| && Live(slots) <= PAGE_SIZE
    && forall i :: 0 <= i < |slots| ==> IsPackedSlot(slots, i, packed[i])
  }

  ghost predicate IsPackedSlot(slots: seq<Slot>, i: nat, s: Slot)
    requires i < |slots|
  {
    Live(slots[..i + 1]) <= PAGE_SIZE && s == PackedSlot(slots, i)
  }

  /** Packing leaves a good directory with all free space in one piece, and as many live bytes. */
  lemma PackedOk(slots: seq<Slot>, packed: seq<Slot>)
    requires IsPacked(slots, packed) && SlotAt(|slots|) + Live(slots) <= PAGE_SIZE
    ensures LayoutOk(packed, PAGE_SIZE - Live(slots))
    ensures forall i :: 0 <= i < |slots| ==> packed[i].IsUsed() == slots[i].IsUsed()
  {
    var freeEnd := PAGE_SIZE - Live(slots);
    forall i | 0 <= i < |slots| ensures SlotOk(packed[i], freeEnd) && packed[i].IsUsed() == slots[i].IsUsed() {
      assert IsPackedSlot(slots, i, packed[i]);
      LiveOfOneMore(slots, i);
      LiveGrows(slots, i + 1);
    }
    forall i, j | 0 <= i < j < |packed| ensures Apart(packed[i], packed[j]) {
      assert IsPackedSlot(slots, i, packed[i]) && IsPackedSlot(slots, j, packed[j]);
      LiveOfOneMore(slots, j);
      LiveIsMonotone(slots, i + 1, j);
    }
  }
}
