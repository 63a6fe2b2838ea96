/** `SharedLatest` as an object: its methods with their loops, run without interference, and a
    writer that may stop after any store. */
module LatestObject {
  import opened Arithmetic
  import opened LatestSlot

  datatype Outcome = Resumed | Recovered | LiveWriter

  /** The heartbeat `seen` at clock value `now` belongs to a writer that counts as alive. */
  predicate Alive(seen: nat, now: nat, threshold: nat) {
    seen != 0 && Diff64(now, seen) < threshold
  }

  class Latest {
    const ring: array<int>
    var sequence: nat
    var heartbeat: nat
    var notify: nat
    /** The last value whose write was completed, or the zeros of an empty slot. */
    ghost var committed: seq<int>

    ghost predicate Valid()
      reads this, ring
    {
      |committed| == ring.Length && (sequence % 2 == 0 ==> ring[..] == committed)
    }

    constructor (words: nat)
      ensures Valid() && fresh(ring) && ring.Length == words
      ensures sequence == heartbeat == notify == 0 && committed == Zeros(words)
    {
      ring := new int[words](i => 0);
      sequence, heartbeat, notify, committed := 0, 0, 0, Zeros(words);
    }

    /** `write`, stopped after `stores` of its stores: one to open, one per word, one to commit, one
        for the heartbeat. */
    method WriteUntil(v: seq<int>, now: nat, stores: nat)
      requires Valid() && sequence % 2 == 0 && |v| == ring.Length
      modifies this, ring
      ensures Valid() && notify == old(notify)
      ensures sequence == old(sequence) + (if stores == 0 then 0 else if stores < |v| + 2 then 1 else 2)
      ensures committed == (if stores < |v| + 2 then old(committed) else v)
      ensures heartbeat == (if stores < |v| + 3 then old(heartbeat) else now)
    {
      if stores == 0 {
        return;
      }
      var s := sequence;
      sequence := s + 1;
      var k := 0;
      while k < |v| && k + 1 < stores
        invariant k <= |v| && (k < stores) && ring[..k] == v[..k]
        modifies ring
      {
        ring[k] := v[k];
        k := k + 1;
      }
      if stores < |v| + 2 {
        return;
      }
      assert ring[..] == v;
      sequence := s + 2;
      committed := v;
      if stores >= |v| + 3 {
        heartbeat := now;
      }
    }

    method Write(v: seq<int>, now: nat)
      requires Valid() && sequence % 2 == 0 && |v| == ring.Length
      modifies this, ring
      ensures Valid() && notify == old(notify)
      ensures sequence == old(sequence) + 2 && committed == v && heartbeat == now
    {
      WriteUntil(v, now, |v| + 3);
    }

    /** The write, then one more notification, which is the wake of every waiter. */
    method WriteAndNotify(v: seq<int>, now: nat)
      requires Valid() && sequence % 2 == 0 && |v| == ring.Length
      modifies this, ring
      ensures Valid() && notify == old(notify) + 1
      ensures sequence == old(sequence) + 2 && committed == v && heartbeat == now
    {
      Write(v, now);
      notify := notify + 1;
    }

    /** `claim` on an existing slot. */
    method Claim(now: nat, threshold: nat) returns (r: Outcome)
      requires Valid()
      modifies this, ring
      ensures Valid()
      ensures r == (if old(sequence) % 2 == 0 then Resumed
                    else if Alive(old(heartbeat), now, threshold) then LiveWriter else Recovered)
      ensures r.LiveWriter? ==>
        && ring[..] == old(ring[..]) && sequence == old(sequence) && heartbeat == old(heartbeat)
        && notify == old(notify) && committed == old(committed)
      ensures r.Resumed? ==>
        sequence == old(sequence) && heartbeat == now && notify == old(notify) && committed == old(committed)
      ensures r.Recovered? ==>
        sequence == 0 && heartbeat == now && notify == old(notify) + 1 && committed == Zeros(ring.Length)
    {
      if sequence % 2 == 0 {
        heartbeat := now;
        return Resumed;
      }
      var seen := heartbeat;
      if seen != 0 && Diff64(now, seen) < threshold {
        return LiveWriter;
      }
      // Nobody interferes, so the exchange of the heartbeat succeeds.
      heartbeat := now;
      var k := 0;
      while k < ring.Length
        invariant k <= ring.Length && forall i :: 0 <= i < k ==> ring[i] == 0
        modifies ring
      {
        ring[k] := 0;
        k := k + 1;
      }
      sequence := 0;
      notify := notify + 1;
      committed := Zeros(ring.Length);
      r := Recovered;
    }

    method CopyOut() returns (out: seq<int>)
      ensures out == ring[..]
    {
      out := [];
      var k := 0;
      while k < ring.Length
        invariant k <= ring.Length && out == ring[..k]
      {
        out := out + [ring[k]];
        k := k + 1;
      }
    }

    /** `try_read` with death detection: an odd sequence is looked into once every 64 retries. */
    method TryReadRich(now: nat, threshold: nat, retries: nat) returns (r: ReadResult, out: seq<int>)
      requires Valid()
      ensures r == (if sequence == 0 then Empty
                    else if sequence % 2 == 0 then if retries > 0 then Success else Contended
                    else if retries >= 64 && heartbeat != 0 && Diff64(now, heartbeat) > threshold then WriterDead
                    else Contended)
      ensures r.Success? ==> out == committed
    {
      out := [];
      if sequence == 0 {
        return Empty, out;
      }
      var i := 0;
      while i < retries
        invariant i <= retries
        invariant i > 0 ==> sequence % 2 == 1
        invariant i >= 64 ==> !(heartbeat != 0 && Diff64(now, heartbeat) > threshold)
      {
        if sequence % 2 != 0 {
          if i % 64 == 63 && heartbeat != 0 && Diff64(now, heartbeat) > threshold {
            return WriterDead, out;
          }
        } else {
          out := CopyOut();
          return Success, out;
        }
        i := i + 1;
      }
      r := Contended;
    }

    /** The plain `try_read`. */
    method TryRead(retries: nat) returns (ok: bool, out: seq<int>)
      requires Valid()
      ensures ok == (sequence % 2 == 0 && retries > 0)
      ensures ok ==> out == committed
    {
      out := [];
      var i := 0;
      while i < retries
        invariant i <= retries && (i > 0 ==> sequence % 2 == 1)
      {
        if sequence % 2 == 0 {
          out := CopyOut();
          return true, out;
        }
        i := i + 1;
      }
      ok := false;
    }

    /** Stop the writer after any of its stores, let the heartbeat go stale, claim, and read: the
        value read is the last committed one complete, or the zeros of an empty slot, and which of
        them depends only on where the writer stopped. */
    method CrashClaimRead(v: seq<int>, now: nat, stores: nat, later: nat, threshold: nat) returns (out: seq<int>)
      requires Valid() && sequence % 2 == 0 && |v| == ring.Length
      requires !Alive(heartbeat, later, threshold)
      modifies this, ring
      ensures Valid()
      ensures out == if stores == 0 then old(committed)
                     else if stores < |v| + 2 then Zeros(|v|) else v
    {
      WriteUntil(v, now, stores);
      var r := Claim(later, threshold);
      var ok;
      ok, out := TryRead(1);
    }
  }
}
