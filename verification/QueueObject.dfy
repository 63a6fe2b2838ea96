/** `SPSCQueue` as an object over an array of slots, for either of its two users while the other is
    between operations. */
module QueueObject {
  import opened Arithmetic
  import opened SpscQueue
  import opened SpscQueueProofs

  /** The slot of the next item holds none of the queued ones. */
  lemma NewHome(lo: nat, hi: nat, cap: nat)
    requires cap > 0 && hi < lo + cap
    ensures forall i :: lo <= i < hi ==> Home(i, cap) != Home(hi, cap)
  {
    forall i | lo <= i < hi ensures Home(i, cap) != Home(hi, cap) {
      HomesDiffer(i, hi, cap);
    }
  }

  class FixedQueue {
    const cap: nat
    const slots: array<Item>
    var head: nat
    var tail: nat
    /** Everything pushed and popped so far. */
    ghost var pushed: seq<Item>
    ghost var popped: seq<Item>

    ghost predicate Valid()
      reads this, slots
    {
      && LegalCapacity(cap) && slots.Length == cap
      && tail == |pushed| % TWO64 && head == |popped| % TWO64
      && popped <= pushed && |pushed| <= |popped| + cap
      && forall i :: |popped| <= i < |pushed| ==> slots[Home(i, cap)] == pushed[i]
    }

    ghost function Items(): seq<Item>
      requires Valid()
      reads this, slots
    {
      pushed[|popped|..]
    }

    constructor (capacity: nat)
      requires LegalCapacity(capacity)
      ensures Valid() && fresh(slots) && cap == capacity && Items() == [] && pushed == popped == []
    {
      cap := capacity;
      slots := new Item[capacity](i => []);
      head, tail, pushed, popped := 0, 0, [], [];
    }

    method TryPush(v: Item) returns (ok: bool)
      requires Valid()
      modifies `tail, `pushed, slots
      ensures Valid()
      ensures ok == (|old(Items())| < cap)
      ensures Items() == old(Items()) + if ok then [v] else []
      ensures pushed == old(pushed) + if ok then [v] else []
    {
      TrueDistance(|pushed|, |popped|);
      if Diff64(tail, head) >= cap {
        assert old(Items()) + [] == old(Items()) && old(pushed) + [] == old(pushed);
        return false;
      }
      MaskedSlot(|pushed|, cap);
      NextIndex(|pushed|);
      NewHome(|popped|, |pushed|, cap);
      hide LegalCapacity, Slot, Home;
      slots[Slot(tail, cap)] := v;
      tail := (tail + 1) % TWO64;
      pushed := pushed + [v];
      ok := true;
    }

    method TryPop() returns (ok: bool, out: Item)
      requires Valid()
      modifies `head, `popped
      ensures Valid()
      ensures ok == (old(Items()) != [])
      ensures ok ==> old(Items()) == [out] + Items() && popped == old(popped) + [out]
      ensures !ok ==> Items() == [] && popped == old(popped)
    {
      TrueDistance(|pushed|, |popped|);
      out := [];
      if head == tail {
        return false, out;
      }
      MaskedSlot(|popped|, cap);
      NextIndex(|popped|);
      out := slots[Slot(head, cap)];
      head := (head + 1) % TWO64;
      popped := popped + [out];
      ok := true;
    }

    method Size() returns (n: nat)
      requires Valid()
      ensures n == |Items()| <= cap
    {
      TrueDistance(|pushed|, |popped|);
      n := Diff64(tail, head);
    }
  }
}
