/** The 64-slot ring with free-running 32-bit counters. */
module Ring {
  import opened Words

  const RING_SIZE: nat := 64

  /** head - tail in 32 bits. */
  function Distance(head: u32, tail: u32): (d: nat)
    ensures d < 0x1_0000_0000
  {
    (head as int - tail as int) % 0x1_0000_0000
  }

  /** The slot i places after tail, whatever the counters have wrapped to. */
  function Index(tail: u32, i: nat): (k: nat)
    ensures k < 64
  {
    (tail as int + i) % 64
  }

  /** Slots of different places within the ring are different. */
  lemma IndexDistinct(tail: u32, i: nat, j: nat)
    requires i < j < 64
    ensures Index(tail, i) != Index(tail, j)
  {
  }

  /** The head counter, reduced to the ring, is the place after the last element. */
  lemma HeadIndex(head: u32, tail: u32)
    requires Distance(head, tail) <= 64
    ensures head as int % 64 == Index(tail, Distance(head, tail))
  {
  }

  lemma TailIndex(tail: u32, i: nat)
    ensures Index(((tail as int + 1) % 0x1_0000_0000) as u32, i) == Index(tail, i + 1)
  {
  }

  lemma DistanceSteps(head: u32, tail: u32)
    ensures Distance(head, tail) < 0xFFFF_FFFF ==>
            Distance(((head as int + 1) % 0x1_0000_0000) as u32, tail) == Distance(head, tail) + 1
    ensures Distance(head, tail) > 0 ==>
            Distance(head, ((tail as int + 1) % 0x1_0000_0000) as u32) == Distance(head, tail) - 1
    ensures Distance(head, tail) == 0 <==> head == tail
  {
    NextModulo(head);
    NextModulo(tail);
  }

  lemma NextModulo(n: u32)
    ensures (n as int + 1) % 0x1_0000_0000 == if n == 0xFFFF_FFFF then 0 else n as int + 1
  {
  }

  /** O9TRing and O9RRing */
  class RingBuffer<T(0)> {
    const slots: array<T>
    var head: u32
    var tail: u32

    ghost predicate Valid()
      reads this
    {
      slots.Length == 64 && Distance(head, tail) <= 64
    }

    /** The queue, oldest first. */
    ghost function Contents(): (q: seq<T>)
      requires Valid()
      reads this, slots
    {
      seq(Distance(head, tail), i requires 0 <= i < Distance(head, tail) reads this,
        slots requires Valid() => slots[Index(tail, i)])
    }

    /** Any two equal counters make an empty ring. */
    constructor (start: u32)
      ensures Valid() && fresh(slots) && Contents() == []
    {
      slots := new T[64];
      head, tail := start, start;
    }

    /** o9_tring_submit, o9_rring_complete */
    method Submit(x: T) returns (ok: bool)
      requires Valid()
      modifies this`head, slots
      ensures Valid()
      ensures ok <==> |old(Contents())| < 64
      ensures Contents() == if ok then old(Contents()) + [x] else old(Contents())
    {
      ok := Distance(head, tail) < RING_SIZE;
      if ok {
        HeadIndex(head, tail);
        DistanceSteps(head, tail);
        ghost var d := Distance(head, tail);
        ghost var q := Contents();
        slots[head as int % 64] := x;
        head := (head as int + 1) % 0x1_0000_0000;
        forall i | 0 <= i < d ensures slots[Index(tail, i)] == q[i] {
          IndexDistinct(tail, i, d);
        }
        assert Contents() == q + [x];
      }
    }

    /** o9_tring_consume, o9_rring_poll */
    method Consume() returns (ok: bool, x: T)
      requires Valid()
      modifies this`tail
      ensures Valid()
      ensures ok <==> old(Contents()) != []
      ensures ok ==> old(Contents()) == [x] + Contents()
      ensures !ok ==> Contents() == old(Contents())
    {
      DistanceSteps(head, tail);
      ok := tail != head;
      x := slots[tail as int % 64];
      if ok {
        ghost var q := Contents();
        ghost var t := tail;
        tail := (tail as int + 1) % 0x1_0000_0000;
        forall i | 0 <= i < Distance(head, tail) ensures Contents()[i] == q[i + 1] { TailIndex(t, i); }
        assert q == [x] + Contents();
      }
    }

    /** o9_tring_len */
    method Len() returns (n: nat)
      requires Valid()
      ensures n == |Contents()|
    {
      n := Distance(head, tail);
    }
  }
}
