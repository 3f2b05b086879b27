/** The input byte ring between an interrupt handler and one reader, load by load and store by store. */
module InputRing {
  import opened Basics

  const BUFFER_SIZE: nat := 128

  datatype Ring = Ring(buf: seq<Byte>, head: nat, tail: nat)

  predicate RingOk(r: Ring) {
    |r.buf| == BUFFER_SIZE && r.head < BUFFER_SIZE && r.tail < BUFFER_SIZE
  }

  function Slot(i: nat): nat {
    i % BUFFER_SIZE
  }

  function Length(r: Ring): nat
    requires RingOk(r)
  {
    (r.tail + BUFFER_SIZE - r.head) % BUFFER_SIZE
  }

  /** The bytes buffered, oldest first. */
  function Buffered(r: Ring): (c: seq<Byte>)
    requires RingOk(r)
    ensures |c| == Length(r) && forall i :: 0 <= i < |c| ==> c[i] == r.buf[Slot(r.head + i)]
  {
    seq<Byte>(Length(r), i requires 0 <= i => r.buf[Slot(r.head + i)])
  }

  // ---------------------------------------------------------------------------
  // Calls that run without interruption
  // ---------------------------------------------------------------------------

  function Enqueue(r: Ring, b: Byte): (r': Ring)
    requires RingOk(r)
    ensures RingOk(r')
    ensures Buffered(r') == if Length(r) == BUFFER_SIZE - 1 then Buffered(r) else Buffered(r) + [b]
  {
    var next := Slot(r.tail + 1);
    if next == r.head then r
    else
      StoreInvisible(r, b);
      PublishTail(r.(buf := r.buf[r.tail := b]));
      r.(buf := r.buf[r.tail := b], tail := next)
  }

  function Dequeue(r: Ring): (out: (Ring, Option<Byte>))
    requires RingOk(r)
    ensures RingOk(out.0)
    ensures if Length(r) == 0 then out == (r, None)
            else out.1 == Some(Buffered(r)[0]) && Buffered(out.0) == Buffered(r)[1..]
  {
    if r.head == r.tail then (r, None)
    else
      PublishHead(r);
      (r.(head := Slot(r.head + 1)), Some(r.buf[r.head]))
  }

  class InputBuffer {
    const buffer: array<Byte>
    var head: nat
    var tail: nat

    ghost predicate Valid()
      reads this, buffer
    {
      buffer.Length == BUFFER_SIZE && head < BUFFER_SIZE && tail < BUFFER_SIZE
    }

    ghost function State(): (r: Ring)
      requires Valid()
      reads this, buffer
      ensures RingOk(r)
    {
      Ring(buffer[..], head, tail)
    }

    constructor ()
      ensures Valid() && Buffered(State()) == []
    {
      buffer := new Byte[BUFFER_SIZE](i => 0);
      head, tail := 0, 0;
    }

    method EnqueueByte(b: Byte)
      requires Valid()
      modifies this`tail, buffer
      ensures Valid() && State() == Enqueue(old(State()), b)
    {
      var currentTail := tail;
      var nextTail := (currentTail + 1) % BUFFER_SIZE;
      if nextTail != head {
        buffer[currentTail] := b;
        assert buffer[..] == old(buffer[..])[currentTail := b];
        tail := nextTail;
      }
    }

    method DequeueByte() returns (r: Option<Byte>)
      requires Valid()
      modifies this`head
      ensures Valid() && (State(), r) == Dequeue(old(State()))
    {
      var currentHead := head;
      if currentHead == tail {
        r := None;
      } else {
        var byte := buffer[currentHead];
        head := (currentHead + 1) % BUFFER_SIZE;
        r := Some(byte);
      }
    }
  }

  // ---------------------------------------------------------------------------
  // Every interleaving
  // ---------------------------------------------------------------------------

  /** The producer between its loads and stores. */
  datatype Producer =
    | PIdle
    | PLoadedTail(byte: Byte, tail: nat)
    | PRoom(byte: Byte, tail: nat)
    | PStored(byte: Byte, tail: nat)

  /** The consumer between its loads and stores. */
  datatype Consumer = CIdle | CLoadedHead(head: nat) | CSome(head: nat) | CLoadedByte(head: nat, byte: Byte)

  /** The shared ring, both actors, and the bytes accepted and taken so far. */
  datatype Shared = Shared(ring: Ring, p: Producer, c: Consumer, accepted: seq<Byte>, taken: seq<Byte>)

  datatype Action = Produce(byte: Byte) | Consume

  /** The producer's next load or store; `byte` matters only when a call begins. */
  function ProducerStep(s: Shared, byte: Byte): Shared
    requires RingOk(s.ring) && (!s.p.PIdle? ==> s.p.tail < BUFFER_SIZE)
  {
    match s.p
    case PIdle => s.(p := PLoadedTail(byte, s.ring.tail))
    case PLoadedTail(b, t) => if Slot(t + 1) != s.ring.head then s.(p := PRoom(b, t)) else s.(p := PIdle)
    case PRoom(b, t) => s.(ring := s.ring.(buf := s.ring.buf[t := b]), p := PStored(b, t))
    case PStored(b, t) => s.(ring := s.ring.(tail := Slot(t + 1)), p := PIdle, accepted := s.accepted + [b])
  }

  /** The consumer's next load or store. */
  function ConsumerStep(s: Shared): Shared
    requires RingOk(s.ring) && (!s.c.CIdle? ==> s.c.head < BUFFER_SIZE)
  {
    match s.c
    case CIdle => s.(c := CLoadedHead(s.ring.head))
    case CLoadedHead(h) => if h == s.ring.tail then s.(c := CIdle) else s.(c := CSome(h))
    case CSome(h) => s.(c := CLoadedByte(h, s.ring.buf[h]))
    case CLoadedByte(h, b) => s.(ring := s.ring.(head := Slot(h + 1)), c := CIdle, taken := s.taken + [b])
  }

  /** Indices held by the actors are in range. */
  predicate InRange(s: Shared) {
    RingOk(s.ring) && (!s.p.PIdle? ==> s.p.tail < BUFFER_SIZE) && (!s.c.CIdle? ==> s.c.head < BUFFER_SIZE)
  }

  function RingStep(s: Shared, a: Action): Shared
    requires InRange(s)
  {
    match a
    case Produce(byte) => ProducerStep(s, byte)
    case Consume => ConsumerStep(s)
  }

  predicate RingInv(s: Shared) {
    && RingOk(s.ring)
    && s.accepted == s.taken + Buffered(s.ring)
    && (!s.p.PIdle? ==> s.p.tail == s.ring.tail)
    && (s.p.PRoom? || s.p.PStored? ==> Length(s.ring) < BUFFER_SIZE - 1)
    && (s.p.PStored? ==> s.ring.buf[s.ring.tail] == s.p.byte)
    && (!s.c.CIdle? ==> s.c.head == s.ring.head)
    && (s.c.CSome? || s.c.CLoadedByte? ==> Length(s.ring) > 0)
    && (s.c.CLoadedByte? ==> s.c.byte == s.ring.buf[s.ring.head])
  }

  /** The slot at the tail is not part of the buffered bytes unless the ring is full. */
  lemma StoreInvisible(r: Ring, b: Byte)
    requires RingOk(r)
    ensures Buffered(r.(buf := r.buf[r.tail := b])) == Buffered(r)
  {
    var r' := r.(buf := r.buf[r.tail := b]);
    forall i | 0 <= i < Length(r) ensures Buffered(r')[i] == Buffered(r)[i] {
      assert Slot(r.head + i) != r.tail;
    }
  }

  /** Publishing the tail adds the byte stored there. */
  lemma PublishTail(r: Ring)
    requires RingOk(r) && Length(r) < BUFFER_SIZE - 1
    ensures var r' := r.(tail := Slot(r.tail + 1));
            RingOk(r') && Buffered(r') == Buffered(r) + [r.buf[r.tail]] && Length(r') == Length(r) + 1
  {
    var r' := r.(tail := Slot(r.tail + 1));
    assert Slot(r.head + Length(r)) == r.tail;
  }

  /** Publishing the head removes the oldest byte. */
  lemma PublishHead(r: Ring)
    requires RingOk(r) && Length(r) > 0
    ensures var r' := r.(head := Slot(r.head + 1));
            RingOk(r') && Buffered(r) == [r.buf[r.head]] + Buffered(r') && Length(r') == Length(r) - 1
  {
    hide Length, Slot, Buffered;
    SlotRange(r.head);
    var r' := r.(head := Slot(r.head + 1));
    ShorterByOne(r);
    var all, rest := Buffered(r), Buffered(r');
    assert |all| == |rest| + 1;
    assert all[0] == r.buf[Slot(r.head + 0)];
    forall i | 0 <= i < |rest| ensures rest[i] == all[i + 1] {
      SlotShift(r.head, i);
    }
    assert all == [all[0]] + rest;
  }

  lemma ShorterByOne(r: Ring)
    requires RingOk(r) && Length(r) > 0
    ensures Length(r.(head := Slot(r.head + 1))) == Length(r) - 1
  {
  }

  lemma SlotRange(h: nat)
    requires h < BUFFER_SIZE
    ensures Slot(h + 1) < BUFFER_SIZE && Slot(h + 0) == h
  {
  }

  lemma SlotShift(h: nat, i: nat)
    requires h < BUFFER_SIZE
    ensures Slot(Slot(h + 1) + i) == Slot(h + (i + 1))
  {
  }

  lemma ProducerKeeps(s: Shared, byte: Byte)
    requires RingInv(s)
    ensures RingInv(ProducerStep(s, byte))
  {
    match s.p {
      case PIdle =>
      case PLoadedTail(_, _) =>
      case PRoom(b, _) =>
        StoreInvisible(s.ring, b);
        OldestKept(s.ring, b);
      case PStored(b, _) =>
        PublishTail(s.ring);
    }
  }

  lemma OldestKept(r: Ring, b: Byte)
    requires RingOk(r)
    ensures Length(r) > 0 ==> r.buf[r.tail := b][r.head] == r.buf[r.head]
  {
  }

  lemma ConsumerKeeps(s: Shared)
    requires RingInv(s)
    ensures RingInv(ConsumerStep(s))
  {
    if s.c.CLoadedByte? {
      PublishHead(s.ring);
      hide Buffered, Length, Slot;
      var ring' := ConsumerStep(s).ring;
      assert s.taken + ([s.c.byte] + Buffered(ring')) == s.taken + [s.c.byte] + Buffered(ring');
    }
  }

  ghost predicate RingRun(states: seq<Shared>, actions: seq<Action>, buf: seq<Byte>) {
    && |buf| == BUFFER_SIZE && |states| == |actions| + 1
    && states[0] == Shared(Ring(buf, 0, 0), PIdle, CIdle, [], [])
    && forall k :: 0 <= k < |actions| ==> InRange(states[k]) && states[k + 1] == RingStep(states[k], actions[k])
  }

  /** Under every interleaving the bytes taken followed by the bytes buffered are the bytes
      accepted, in order, and at most 127 are buffered. */
  lemma {:induction false} FifoUnderInterleaving(states: seq<Shared>, actions: seq<Action>, buf: seq<Byte>, n: nat)
    requires RingRun(states, actions, buf) && n <= |actions|
    ensures RingInv(states[n])
    ensures states[n].accepted == states[n].taken + Buffered(states[n].ring) && |Buffered(states[n].ring)| <= 127
  {
    if n > 0 {
      FifoUnderInterleaving(states, actions, buf, n - 1);
      match actions[n - 1] {
        case Produce(byte) => ProducerKeeps(states[n - 1], byte);
        case Consume => ConsumerKeeps(states[n - 1]);
      }
    }
  }

  /** A byte is dropped exactly when the ring is full, and a read comes back empty-handed exactly
      when the ring is empty, at the moment the other side's index is loaded. */
  lemma DropsOnlyWhenFull(s: Shared, byte: Byte)
    requires RingInv(s)
    ensures s.p.PLoadedTail? ==> (ProducerStep(s, byte).p.PIdle? <==> |Buffered(s.ring)| == 127)
    ensures s.c.CLoadedHead? ==> (ConsumerStep(s).c.CIdle? <==> Buffered(s.ring) == [])
  {
  }

  /** Four producer steps in a row are one uninterrupted call, and likewise for the consumer. */
  lemma StepsMakeCalls(s: Shared, b: Byte)
    requires RingInv(s) && s.p.PIdle? && s.c.CIdle?
    ensures var s1 := ProducerStep(s, b);
            var s2 := ProducerStep(s1, b);
            if s2.p.PIdle? then s2.ring == Enqueue(s.ring, b)
            else ProducerStep(ProducerStep(s2, b), b).ring == Enqueue(s.ring, b)
    ensures var s1 := ConsumerStep(s);
            var s2 := ConsumerStep(s1);
            if s2.c.CIdle? then Dequeue(s.ring) == (s2.ring, None)
            else var s4 := ConsumerStep(ConsumerStep(s2)); Dequeue(s.ring) == (s4.ring, Some(s4.taken[|s.taken|]))
  {
  }
}
