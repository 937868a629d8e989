/** The agent's software receive ring (agent/protocol.c): `soft_rx` with a head and
    a tail index, one slot always free, a byte dropped when the ring is full. */
module SoftRing {
  import opened Bits

  const RING_SIZE := 72 * 1024

  /** The slot after i, wrapping around. */
  function Next(i: nat, size: nat): (n: nat)
    requires i < size
    ensures n == if i + 1 == size then 0 else i + 1
  {
    if i + 1 < size then SmallMod(i + 1, size); (i + 1) % size else (i + 1) % size
  }

  lemma SmallMod(a: nat, n: nat)
    requires a < n
    ensures a % n == a
  {
    DivModBy(a, n, 0, a);
  }

  /** The bytes from tail up to, but not including, head. */
  ghost function Queue(slots: seq<Byte>, tail: nat, head: nat): (s: seq<Byte>)
    requires tail < |slots| && head < |slots|
    ensures |s| == if tail <= head then head - tail else |slots| - tail + head
  {
    if tail <= head then slots[tail..head] else slots[tail..] + slots[..head]
  }

  lemma QueuePut(slots: seq<Byte>, tail: nat, head: nat, b: Byte)
    requires tail < |slots| && head < |slots| && Next(head, |slots|) != tail
    ensures Queue(slots[head := b], tail, Next(head, |slots|)) == Queue(slots, tail, head) + [b]
  {
  }

  lemma QueueGet(slots: seq<Byte>, tail: nat, head: nat)
    requires tail < |slots| && head < |slots| && tail != head
    ensures Queue(slots, tail, head) == [slots[tail]] + Queue(slots, Next(tail, |slots|), head)
  {
  }

  class Ring {
    const slots: array<Byte>
    var head: nat
    var tail: nat

    ghost predicate Valid()
      reads this
    {
      head < slots.Length && tail < slots.Length
    }

    /** The queued bytes, oldest first. */
    ghost function Contents(): (s: seq<Byte>)
      requires Valid()
      reads this, slots
      ensures |s| < slots.Length
    {
      Queue(slots[..], tail, head)
    }

    constructor (size: nat)
      requires size > 0
      ensures Valid() && fresh(slots) && slots.Length == size && Contents() == []
    {
      slots := new Byte[size](_ => 0);
      head, tail := 0, 0;
    }

    /** One byte out of soft_rx_drain's loop: kept exactly when a slot besides the
        guard slot is free. */
    method Put(b: Byte) returns (kept: bool)
      requires Valid()
      modifies this, slots
      ensures Valid()
      ensures kept <==> old(|Contents()|) + 1 < slots.Length
      ensures Contents() == if kept then old(Contents()) + [b] else old(Contents())
    {
      var next := Next(head, slots.Length);
      kept := next != tail;
      if kept {
        QueuePut(slots[..], tail, head, b);
        ghost var after := slots[..][head := b];
        slots[head] := b;
        assert slots[..] == after;
        head := next;
      }
    }

    /** soft_rx_get and the first half of proto_recv's byte fetch: -1 when empty. */
    method Get() returns (b: int)
      requires Valid()
      modifies this`tail
      ensures Valid()
      ensures old(Contents()) == [] ==> b == -1 && Contents() == []
      ensures old(Contents()) != [] ==> b == old(Contents())[0] && Contents() == old(Contents())[1..]
    {
      if head != tail {
        QueueGet(slots[..], tail, head);
        b := slots[tail];
        tail := Next(tail, slots.Length);
      } else {
        b := -1;
      }
    }

    /** Draining a burst: the ring behaves as an unbounded queue exactly as long as
        everything queued stays below its size. */
    method Drain(burst: seq<Byte>) returns (kept: nat)
      requires Valid()
      modifies this, slots
      ensures Valid()
      ensures kept == if old(|Contents()|) + |burst| < slots.Length then |burst|
                      else slots.Length - 1 - old(|Contents()|)
      ensures Contents() == old(Contents()) + burst[..kept]
    {
      kept := 0;
      ghost var before := Contents();
      for i := 0 to |burst|
        invariant Valid() && kept <= i
        invariant kept == i || (kept < i && |before| + kept + 1 == slots.Length)
        invariant |before| + kept < slots.Length
        invariant Contents() == before + burst[..kept]
      {
        var stored := Put(burst[i]);
        if stored {
          assert burst[..i + 1] == burst[..i] + [burst[i]];
          kept := kept + 1;
        }
      }
    }
  }
}
