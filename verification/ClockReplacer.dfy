/** The CLOCK replacer: frames in a circle, each with a reference bit that earns it a second chance. */
module ClockReplacement {

  datatype Status = Done | OutOfRange | AlreadyCandidate

  datatype Victim = Frame(frame: nat) | NoVictim

  function Count(bits: seq<bool>): (n: nat)
    ensures n <= |bits|
  {
    if bits == [] then 0 else (if bits[|bits| - 1] then 1 else 0) + Count(bits[..|bits| - 1])
  }

  lemma {:induction false} CountAfter(bits: seq<bool>, i: nat, b: bool)
    requires i < |bits|
    ensures Count(bits[i := b]) == Count(bits) - (if bits[i] then 1 else 0) + (if b then 1 else 0)
  {
    var n := |bits| - 1;
    if i == n {
      assert bits[i := b][..n] == bits[..n];
    } else {
      assert bits[i := b][..n] == bits[..n][i := b];
      CountAfter(bits[..n], i, b);
    }
  }

  /** The count is zero exactly when no bit is set. */
  lemma {:induction false} CountIsPositive(bits: seq<bool>)
    ensures Count(bits) > 0 <==> exists i :: 0 <= i < |bits| && bits[i]
  {
    if bits != [] {
      var n := |bits| - 1;
      CountIsPositive(bits[..n]);
      if i :| 0 <= i < |bits| && bits[i] {
        assert i == n || bits[..n][i];
      }
    }
  }

  /** How far a frame lies ahead of the hand. */
  function Ahead(hand: nat, frame: nat, capacity: nat): (d: nat)
    requires hand < capacity && frame < capacity
    ensures d < capacity
  {
    if frame >= hand then frame - hand else frame - hand + capacity
  }

  class ClockReplacer {
    const capacity: nat
    const active: array<bool>
    const evictable: array<bool>
    const referenced: array<bool>
    var hand: nat
    var evictableCount: nat

    ghost predicate Valid()
      reads this, active, evictable, referenced
    {
      active.Length == evictable.Length == referenced.Length == capacity
      && active != evictable && evictable != referenced && active != referenced
      && (hand < capacity || hand == capacity == 0)
      && evictableCount == Count(evictable[..])
      && forall f :: 0 <= f < capacity ==> evictable[f] ==> active[f]
    }

    constructor (capacity: nat)
      ensures Valid() && this.capacity == capacity && evictableCount == 0
      ensures fresh(active) && fresh(evictable) && fresh(referenced)
      ensures forall f :: 0 <= f < capacity ==> !active[f] && !evictable[f] && !referenced[f]
    {
      this.capacity := capacity;
      active := new bool[capacity](_ => false);
      evictable := new bool[capacity](_ => false);
      referenced := new bool[capacity](_ => false);
      hand := 0;
      evictableCount := 0;
      new;
      CountIsPositive(evictable[..]);
    }

    method SetEvictable(frame: nat, b: bool)
      requires Valid() && frame < capacity && (b ==> active[frame])
      modifies evictable, this`evictableCount
      ensures Valid() && evictable[..] == old(evictable[..])[frame := b]
    {
      CountAfter(evictable[..], frame, b);
      if evictable[frame] && !b { evictableCount := evictableCount - 1; }
      if !evictable[frame] && b { evictableCount := evictableCount + 1; }
      evictable[frame] := b;
      assert evictable[..] == old(evictable[..])[frame := b];
    }

    method Pin(frame: nat) returns (r: Status)
      requires Valid()
      modifies this`evictableCount, active, evictable, referenced
      ensures Valid()
      ensures r == if frame < capacity then Done else OutOfRange
      ensures frame < capacity ==>
                active[..] == old(active[..])[frame := true]
                && evictable[..] == old(evictable[..])[frame := false]
                && referenced[..] == old(referenced[..])[frame := true]
      ensures frame >= capacity ==>
                active[..] == old(active[..]) && evictable[..] == old(evictable[..])
                  && referenced[..] == old(referenced[..])
    {
      if frame >= capacity { return OutOfRange; }
      active[frame] := true;
      referenced[frame] := true;
      SetEvictable(frame, false);
      return Done;
    }

    method Unpin(frame: nat) returns (r: Status)
      requires Valid()
      modifies this`evictableCount, active, evictable, referenced
      ensures Valid()
      ensures r == if frame >= capacity then OutOfRange
                   else if old(evictable[..])[frame] then AlreadyCandidate else Done
      ensures r.Done? ==>
                active[..] == old(active[..])[frame := true]
                && evictable[..] == old(evictable[..])[frame := true]
                && referenced[..] == old(referenced[..])[frame := true]
      ensures !r.Done? ==>
                active[..] == old(active[..]) && evictable[..] == old(evictable[..])
                  && referenced[..] == old(referenced[..])
    {
      if frame >= capacity { return OutOfRange; }
      active[frame] := true;
      if evictable[frame] {
        assert active[..] == old(active[..]);
        return AlreadyCandidate;
      }
      referenced[frame] := true;
      SetEvictable(frame, true);
      return Done;
    }

    method RecordAccess(frame: nat) returns (r: Status)
      requires Valid()
      modifies active, referenced
      ensures Valid()
      ensures r == if frame < capacity then Done else OutOfRange
      ensures frame < capacity ==>
                active[..] == old(active[..])[frame := true] && referenced[..] == old(referenced[..])[frame := true]
      ensures frame >= capacity ==> active[..] == old(active[..]) && referenced[..] == old(referenced[..])
    {
      if frame >= capacity { return OutOfRange; }
      active[frame] := true;
      referenced[frame] := true;
      return Done;
    }

    method Remove(frame: nat) returns (r: Status)
      requires Valid()
      modifies this`evictableCount, active, evictable, referenced
      ensures Valid()
      ensures r == if frame < capacity then Done else OutOfRange
      ensures frame < capacity ==>
                active[..] == old(active[..])[frame := false]
                && evictable[..] == old(evictable[..])[frame := false]
                && referenced[..] == old(referenced[..])[frame := false]
      ensures frame >= capacity ==>
                active[..] == old(active[..]) && evictable[..] == old(evictable[..])
                  && referenced[..] == old(referenced[..])
    {
      if frame >= capacity { return OutOfRange; }
      SetEvictable(frame, false);
      active[frame] := false;
      referenced[frame] := false;
      return Done;
    }

    /** A victim is found whenever some frame can be evicted. Every evictable frame that the hand passes over
        had its reference bit set and loses it; when all of them had theirs set, the hand comes round and takes
        the first one. Nothing else changes. */
    method FindVictim() returns (r: Victim)
      requires Valid()
      modifies this`hand, this`evictableCount, active, evictable, referenced
      ensures Valid()
      ensures r.NoVictim? <==> forall f :: 0 <= f < capacity ==> !old(evictable[f])
      ensures r.NoVictim? ==> unchanged(this) && unchanged(active) && unchanged(evictable) && unchanged(referenced)
      ensures r.Frame? ==>
                r.frame < capacity && old(evictable[r.frame])
                && evictable[..] == old(evictable[..])[r.frame := false]
                && active[..] == old(active[..])[r.frame := false]
                && hand == (r.frame + 1) % capacity
                && ChosenFairly(r.frame, old(hand), old(evictable[..]), old(referenced[..]), referenced[..])
    {
      CountIsPositive(evictable[..]);
      if evictableCount == 0 || capacity == 0 { return NoVictim; }
      ghost var start, before := hand, referenced[..];
      var maxSteps := capacity * 2;
      var step := 0;
      PassedNothing(start, evictable[..], before);
      while step < maxSteps
        invariant 0 <= step < maxSteps && Valid()
        invariant hand == Turned(start, step, capacity)
        invariant active[..] == old(active[..]) && evictable[..] == old(evictable[..])
        invariant PassedOver(step, start, evictable[..], before, referenced[..])
      {
        var taken, frame := Look(start, step, before);
        if taken {
          Take(frame);
          return Frame(frame);
        }
        step := step + 1;
        CandidateIsAhead(step, start, evictable[..], before, referenced[..]);
      }
      assert false;
    }

    /** One step of the hand: it moves on, and clears the bit of a candidate that it does not take. */
    method Look(ghost start: nat, ghost step: nat, ghost before: seq<bool>) returns (taken: bool, frame: nat)
      requires Valid() && start < capacity && step < 2 * capacity && hand == Turned(start, step, capacity)
      requires PassedOver(step, start, evictable[..], before, referenced[..])
      modifies this`hand, referenced
      ensures Valid() && hand == Turned(start, step + 1, capacity) && frame < capacity && hand == (frame + 1) % capacity
      ensures taken ==> evictable[frame] && ChosenFairly(frame, start, evictable[..], before, referenced[..])
      ensures !taken ==> PassedOver(step + 1, start, evictable[..], before, referenced[..])
    {
      frame := hand;
      TurnedOnce(start, step, capacity);
      hand := (hand + 1) % capacity;
      ghost var bits := referenced[..];
      taken := active[frame] && evictable[frame] && !referenced[frame];
      if taken {
        TakenFairly(step, start, frame, evictable[..], before, bits);
      } else {
        if active[frame] && evictable[frame] { referenced[frame] := false; }
        StepPasses(step, start, frame, evictable[..], before, bits, referenced[..]);
      }
    }

    method Take(frame: nat)
      requires Valid() && frame < capacity
      modifies this`evictableCount, active, evictable
      ensures Valid()
      ensures evictable[..] == old(evictable[..])[frame := false] && active[..] == old(active[..])[frame := false]
    {
      SetEvictable(frame, false);
      active[frame] := false;
      assert evictable[..] == old(evictable[..])[frame := false];
    }
  }

  /** Where the hand stands after so many steps of at most two rounds. */
  function Turned(start: nat, step: nat, capacity: nat): nat
    requires start < capacity && step <= 2 * capacity
  {
    if start + step < capacity then start + step
    else if start + step < 2 * capacity then start + step - capacity
    else start + step - 2 * capacity
  }

  lemma TurnedOnce(start: nat, step: nat, capacity: nat)
    requires start < capacity && step < 2 * capacity
    ensures var here := Turned(start, step, capacity);
            here < capacity && (here + 1) % capacity == Turned(start, step + 1, capacity)
            && Ahead(start, here, capacity) == if step < capacity then step else step - capacity
  {
    var here := Turned(start, step, capacity);
    if here + 1 < capacity {
      assert (here + 1) % capacity == here + 1;
    } else {
      assert (here + 1) % capacity == 0;
    }
  }

  /** What so many steps of the hand did: in the first round every candidate passed over loses its bit; in the
      second round, which starts only if all candidates had theirs set, no candidate is passed over. */
  ghost predicate PassedOver(step: nat, start: nat, evictable: seq<bool>, before: seq<bool>, now: seq<bool>) {
    |evictable| == |before| == |now| && start < |now| && step <= 2 * |now|
    && forall f :: 0 <= f < |now| ==>
         var d := Ahead(start, f, |now|);
         if !evictable[f] then now[f] == before[f]
         else if step <= |now| then
           (d < step ==> before[f] && !now[f]) && (d >= step ==> now[f] == before[f])
         else before[f] && !now[f] && d >= step - |now|
  }

  /** The frame taken is the first candidate ahead of the hand whose bit was clear; only if every candidate had
      its bit set is it the first candidate ahead of the hand. */
  ghost predicate ChosenFairly(frame: nat, start: nat, evictable: seq<bool>, before: seq<bool>, now: seq<bool>) {
    |evictable| == |before| == |now| && start < |now| && frame < |now| && evictable[frame]
    && if !before[frame] then
         forall f :: 0 <= f < |now| ==>
           if evictable[f] && Ahead(start, f, |now|) < Ahead(start, frame, |now|) then before[f] && !now[f]
           else now[f] == before[f]
       else
         forall f :: 0 <= f < |now| ==>
           if evictable[f] then before[f] && !now[f] && Ahead(start, frame, |now|) <= Ahead(start, f, |now|)
           else now[f] == before[f]
  }

  lemma TakenFairly(step: nat, start: nat, frame: nat, evictable: seq<bool>, before: seq<bool>, now: seq<bool>)
    requires PassedOver(step, start, evictable, before, now) && step < 2 * |now|
    requires frame == Turned(start, step, |now|) < |now| && evictable[frame] && !now[frame]
    ensures ChosenFairly(frame, start, evictable, before, now)
  {
    TurnedOnce(start, step, |now|);
  }

  lemma StepPasses(step: nat, start: nat, frame: nat, evictable: seq<bool>, before: seq<bool>, now: seq<bool>,
                   next: seq<bool>)
    requires PassedOver(step, start, evictable, before, now) && step < 2 * |now|
    requires frame == Turned(start, step, |now|) < |now|
    requires evictable[frame] ==> now[frame]
    requires next == if evictable[frame] then now[frame := false] else now
    ensures PassedOver(step + 1, start, evictable, before, next)
  {
    TurnedOnce(start, step, |now|);
    forall f | 0 <= f < |now| && f != frame ensures Ahead(start, f, |now|) != Ahead(start, frame, |now|) {
    }
  }

  lemma PassedNothing(start: nat, evictable: seq<bool>, bits: seq<bool>)
    requires |evictable| == |bits| && start < |bits|
    ensures PassedOver(0, start, evictable, bits, bits)
  {
  }

  /** Two full rounds would have found a candidate. */
  lemma CandidateIsAhead(step: nat, start: nat, evictable: seq<bool>, before: seq<bool>, now: seq<bool>)
    requires PassedOver(step, start, evictable, before, now) && Count(evictable) > 0
    ensures step < 2 * |now|
  {
    CountIsPositive(evictable);
    var f :| 0 <= f < |now| && evictable[f];
    assert Ahead(start, f, |now|) < |now|;
  }
}
