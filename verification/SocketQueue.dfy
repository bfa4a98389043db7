/** The bounded queue through which the master thread hands accepted sockets to the workers. */
module SocketQueue {
  import opened Wrappers

  const QUEUE_SIZE := 20

  /** The ring buffer with its two running counters. */
  datatype Ring<T> = Ring(slots: seq<T>, head: int, tail: int)

  predicate Valid<T>(r: Ring<T>) {
    && |r.slots| == QUEUE_SIZE
    && 0 <= r.tail <= QUEUE_SIZE
    && r.tail <= r.head <= r.tail + QUEUE_SIZE
  }

  /** The queue the ring stands for, oldest socket first. */
  function Contents<T>(r: Ring<T>): (q: seq<T>)
    requires Valid(r)
    ensures |q| == r.head - r.tail
  {
    seq(r.head - r.tail, i requires 0 <= i < r.head - r.tail => r.slots[(r.tail + i) % QUEUE_SIZE])
  }

  predicate Full<T>(r: Ring<T>) { r.head - r.tail >= QUEUE_SIZE }

  function Put<T>(r: Ring<T>, x: T): Ring<T>
    requires Valid(r) && !Full(r)
  {
    Ring(r.slots[r.head % QUEUE_SIZE := x], r.head + 1, r.tail)
  }

  /** Moves both counters back together until the tail is in range again. */
  function Wrap<T>(r: Ring<T>): Ring<T>
    decreases r.tail
  {
    if r.tail > QUEUE_SIZE then Wrap(Ring(r.slots, r.head - QUEUE_SIZE, r.tail - QUEUE_SIZE)) else r
  }

  function Take<T>(r: Ring<T>): (T, Ring<T>)
    requires Valid(r) && r.head > r.tail
  {
    (r.slots[r.tail % QUEUE_SIZE], Wrap(Ring(r.slots, r.head, r.tail + 1)))
  }

  /** Two positions less than a lap apart fall on different slots. */
  lemma Distinct(a: nat, b: nat)
    requires a < b < a + QUEUE_SIZE
    ensures a % QUEUE_SIZE != b % QUEUE_SIZE
  {
  }

  lemma Lap(a: nat)
    ensures (a + QUEUE_SIZE) % QUEUE_SIZE == a % QUEUE_SIZE
  {
  }

  /** Putting appends at the end of the queue and disturbs nothing in it. */
  lemma PutAppends<T>(r: Ring<T>, x: T)
    requires Valid(r) && !Full(r)
    ensures Valid(Put(r, x)) && Contents(Put(r, x)) == Contents(r) + [x]
  {
    var r' := Put(r, x);
    forall i | 0 <= i < r.head - r.tail
      ensures Contents(r')[i] == Contents(r)[i]
    {
      Distinct(r.tail + i, r.head);
    }
  }

  /** Taking removes the oldest socket, also when both counters wrap. */
  lemma TakeRemoves<T>(r: Ring<T>)
    requires Valid(r) && r.head > r.tail
    ensures Valid(Take(r).1) && Contents(r) == [Take(r).0] + Contents(Take(r).1)
  {
    var r' := Take(r).1;
    if r.tail == QUEUE_SIZE {
      var back := Ring(r.slots, r.head - QUEUE_SIZE, 1);
      assert Wrap(back) == back && r' == Wrap(back);
    }
    forall i | 0 <= i < r'.head - r'.tail
      ensures Contents(r')[i] == Contents(r)[i + 1]
    {
      Lap(r'.tail + i);
    }
  }

  /** The fields of the server context that the queue consists of. */
  class Queue<T(0)> {
    const slots: array<T>
    var head: int
    var tail: int

    ghost function State(): Ring<T>
      reads this, slots
    {
      Ring(slots[..], head, tail)
    }

    constructor ()
      ensures Valid(State()) && Contents(State()) == []
    {
      slots := new T[QUEUE_SIZE];
      head, tail := 0, 0;
    }

    /** The master's critical section, entered when there is room or the server stops. */
    method Produce(x: T, stopping: bool) returns (queued: bool)
      requires Valid(State()) && (stopping || !Full(State()))
      modifies this, slots
      ensures Valid(State())
      ensures queued == !Full(old(State()))
      ensures queued ==> State() == Put(old(State()), x) && Contents(State()) == Contents(old(State())) + [x]
      ensures !queued ==> State() == old(State())
    {
      queued := head - tail < QUEUE_SIZE;
      if queued {
        PutAppends(State(), x);
        slots[head % QUEUE_SIZE] := x;
        head := head + 1;
      }
    }

    /** A worker's critical section, entered when the queue holds a socket or the server stops. */
    method Consume(stopping: bool) returns (x: Option<T>)
      requires Valid(State()) && (stopping || head != tail)
      modifies this
      ensures Valid(State())
      ensures x.None? <==> Contents(old(State())) == []
      ensures x.None? ==> State() == old(State())
      ensures x.Some? ==> (x.value, State()) == Take(old(State()))
                          && Contents(old(State())) == [x.value] + Contents(State())
    {
      x := None;
      if head > tail {
        TakeRemoves(State());
        ghost var after := Take(State()).1;
        x := Some(slots[tail % QUEUE_SIZE]);
        tail := tail + 1;
        while tail > QUEUE_SIZE
          invariant Wrap(State()) == after
          invariant slots[..] == old(slots[..])
          decreases tail
        {
          tail := tail - QUEUE_SIZE;
          head := head - QUEUE_SIZE;
        }
      }
    }
  }
}
