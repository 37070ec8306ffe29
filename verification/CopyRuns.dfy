/** Every interleaving of the producer and the consumer. */
module CopyRuns {
  import opened Copy

  /** Where a thread is in one round: before Down, in its wait loop, at the ring, before Up. */
  datatype Stage = Lowering | Waiting | Working | Raising | Finished

  /** pos source bytes are sent, and half of the next one's code if `second`. The consumer holds a
      byte it took, knows whether an escape came before it, and has bytes in its buffer and in the
      file. */
  datatype Copying = Copying(
    pos: nat, second: bool, producer: Stage, producerFlag: bool,
    consumer: Stage, consumerFlag: bool, taken: Byte, escaped: bool, done: bool, chunk: seq<Byte>, file: seq<Byte>,
    empty: Semaphore, full: Semaphore, ring: Ring)

  /** Before both threads run; what the ring's memory holds does not matter. */
  function Start(memory: seq<Byte>): Copying {
    Copying(0, false, Lowering, false, Lowering, false, 0, false, false, [], [],
            Semaphore(1024, false, false), Semaphore(0, false, false), EmptyRing(memory))
  }

  // ----- steps -----

  /** The byte the producer sends next. */
  function Current(src: seq<Byte>, s: Copying): Byte {
    if s.pos >= |src| then END
    else if s.second && |Code(src[s.pos])| == 2 then Code(src[s.pos])[1]
    else Code(src[s.pos])[0]
  }

  function Advanced(src: seq<Byte>, s: Copying): Copying {
    if s.pos >= |src| then s.(producer := Finished)
    else if !s.second && |Code(src[s.pos])| == 2 then s.(second := true, producer := Lowering)
    else s.(pos := s.pos + 1, second := false, producer := Lowering)
  }

  /** Down on empty. */
  function EmptyLowered(s: Copying): Copying {
    var (sem, wait) := Lowered(s.empty);
    if wait then s.(empty := sem, producer := Waiting, producerFlag := true) else s.(empty := sem, producer := Working)
  }

  /** Up on full. */
  function FullRaised(s: Copying): Copying {
    var (sem, wake) := Raised(s.full);
    s.(full := sem, consumerFlag := if wake then false else s.consumerFlag)
  }

  function Enqueuing(s: Copying, b: Byte): Copying
    requires s.ring.tail < |s.ring.buffer|
  {
    s.(ring := Enqueued(s.ring, b), producer := Raising)
  }

  function ProducerStep(src: seq<Byte>, s: Copying): Copying {
    match s.producer
    case Lowering => EmptyLowered(s)
    case Waiting => if s.producerFlag then s else s.(producer := Working)
    case Working => if s.ring.tail >= |s.ring.buffer| then s else Enqueuing(s, Current(src, s))
    case Raising => Advanced(src, FullRaised(s))
    case Finished => s
  }

  /** What the consumer does with the byte it took. */
  function Processed(s: Copying): Copying {
    var d := Decoded(Decoder([], s.escaped, s.done), s.taken);
    var chunk := s.chunk + d.out;
    if d.done then s.(escaped := d.escaped, done := true, chunk := [], file := s.file + chunk, consumer := Finished)
    else if |chunk| >= 33 then s.(escaped := d.escaped, chunk := [], file := s.file + chunk, consumer := Lowering)
    else s.(escaped := d.escaped, chunk := chunk, consumer := Lowering)
  }

  /** Down on full. */
  function FullLowered(s: Copying): Copying {
    var (sem, wait) := Lowered(s.full);
    if wait then s.(full := sem, consumer := Waiting, consumerFlag := true) else s.(full := sem, consumer := Working)
  }

  /** Up on empty. */
  function EmptyRaised(s: Copying): Copying {
    var (sem, wake) := Raised(s.empty);
    s.(empty := sem, producerFlag := if wake then false else s.producerFlag)
  }

  function Dequeuing(s: Copying): Copying
    requires s.ring.head < |s.ring.buffer|
  {
    s.(taken := s.ring.buffer[s.ring.head], ring := Dequeued(s.ring), consumer := Raising)
  }

  function ConsumerStep(s: Copying): Copying {
    match s.consumer
    case Lowering => FullLowered(s)
    case Waiting => if s.consumerFlag then s else s.(consumer := Working)
    case Working => if s.ring.head >= |s.ring.buffer| then s else Dequeuing(s)
    case Raising => Processed(EmptyRaised(s))
    case Finished => s
  }

  datatype Thread = Producer | Consumer

  function Step(src: seq<Byte>, s: Copying, t: Thread): Copying {
    if t == Producer then ProducerStep(src, s) else ConsumerStep(s)
  }

  function Run(src: seq<Byte>, s: Copying, schedule: seq<Thread>): Copying
    decreases |schedule|
  {
    if schedule == [] then s else Run(src, Step(src, s, schedule[0]), schedule[1..])
  }

  // ----- the invariant -----

  function One(b: bool): nat { if b then 1 else 0 }

  /** Bytes of the wire the producer has gone on from. */
  function Sent(src: seq<Byte>, s: Copying): nat
    requires s.pos <= |src|
  {
    |Encode(src[..s.pos])| + One(s.second) + One(s.producer == Finished)
  }

  /** Bytes put into the ring, bytes taken out of it, and bytes the consumer is done with, when the
      producer has gone on from `sent`. */
  function Put(s: Copying, sent: nat): nat { sent + One(s.producer == Raising) }

  function Got(s: Copying, sent: nat): int { Put(s, sent) - s.ring.count }

  function Handled(s: Copying, sent: nat): int { Got(s, sent) - One(s.consumer == Raising) }

  predicate Blocked(stage: Stage, flag: bool) { stage == Waiting && flag }

  /** A semaphore is at -1, with its node linked, exactly while its waiter is blocked. */
  predicate SemaphoreOk(s: Semaphore, blocked: bool) {
    s.value >= -1 && (s.value == -1 <==> blocked) && s.head == s.tail == blocked
  }

  predicate Pending(stage: Stage) { stage == Waiting || stage == Working }

  predicate Counts(s: Copying, sent: nat) {
    && SemaphoreOk(s.empty, Blocked(s.producer, s.producerFlag))
    && SemaphoreOk(s.full, Blocked(s.consumer, s.consumerFlag))
    && s.empty.value == 1024 - Put(s, sent) - One(Pending(s.producer)) + Handled(s, sent)
    && s.full.value == sent - Got(s, sent) - One(Pending(s.consumer))
  }

  ghost predicate Position(src: seq<Byte>, s: Copying) {
    && s.pos <= |src| && (s.second ==> s.pos < |src| && |Code(src[s.pos])| == 2)
    && (s.producer == Finished ==> s.pos == |src|)
  }

  /** What is in the ring is the part of the wire between got and put. */
  predicate Carried(wire: seq<Byte>, s: Copying, sent: nat) {
    && RingOk(s.ring) && 0 <= Handled(s, sent) && Put(s, sent) <= |wire|
    && Queue(s.ring) == wire[Got(s, sent)..Put(s, sent)]
    && (s.consumer == Raising ==> s.taken == wire[Got(s, sent) - 1])
  }

  /** What the consumer has is what its part of the wire decodes to. */
  ghost predicate Received(part: seq<Byte>, s: Copying) {
    && Decode(part) == Decoder(s.file + s.chunk, s.escaped, s.done)
    && (s.done <==> s.consumer == Finished) && |s.chunk| < 33 && (s.done ==> s.chunk == [])
  }

  ghost predicate Linked(wire: seq<Byte>, s: Copying, sent: nat) {
    Counts(s, sent) && Carried(wire, s, sent) && Received(wire[..Handled(s, sent)], s)
  }

  ghost predicate Inv(src: seq<Byte>, s: Copying) { Position(src, s) && Linked(Wire(src), s, Sent(src, s)) }

  lemma StartInv(src: seq<Byte>, memory: seq<Byte>)
    requires |memory| == 1024
    ensures Inv(src, Start(memory))
  {
    assert src[..0] == [];
    assert Wire(src)[..0] == [];
  }

  // ----- the producer -----

  /** The producer's next byte is the next byte of the wire. */
  lemma CurrentIsNext(src: seq<Byte>, s: Copying)
    requires Position(src, s) && s.producer != Finished
    ensures Sent(src, s) < |Wire(src)| && Wire(src)[Sent(src, s)] == Current(src, s)
  {
    if s.pos < |src| {
      CodePrefix(src, s.pos);
    } else {
      assert src[..s.pos] == src;
    }
  }

  lemma AdvanceCounts(src: seq<Byte>, s: Copying)
    requires Position(src, s) && s.producer == Raising
    ensures Position(src, Advanced(src, s)) && Sent(src, Advanced(src, s)) == Sent(src, s) + 1
  {
    if s.pos < |src| { CodePrefix(src, s.pos); }
  }

  /** Steps that touch neither the ring nor what the consumer holds. */
  lemma LoadStays(wire: seq<Byte>, s: Copying, sent: nat, s': Copying, sent': nat)
    requires Carried(wire, s, sent) && Received(wire[..Handled(s, sent)], s) && Put(s', sent') == Put(s, sent)
    requires s'.ring == s.ring && s'.taken == s.taken && s'.file == s.file && s'.chunk == s.chunk
    requires s'.escaped == s.escaped && s'.done == s.done
    requires (s'.consumer == Raising <==> s.consumer == Raising)
             && (s'.consumer == Finished <==> s.consumer == Finished)
    ensures Handled(s', sent') == Handled(s, sent) && Got(s', sent') == Got(s, sent)
    ensures Carried(wire, s', sent') && Received(wire[..Handled(s', sent')], s')
  {}

  lemma LoweredOk(s: Semaphore)
    requires SemaphoreOk(s, false)
    ensures Lowered(s).0.value == s.value - 1 && SemaphoreOk(Lowered(s).0, Lowered(s).1)
  {}

  lemma EmptyLoweredCounts(s: Copying, sent: nat)
    requires Counts(s, sent) && s.producer == Lowering
    ensures Counts(EmptyLowered(s), sent)
  {
    hide Lowered, SemaphoreOk;
    LoweredOk(s.empty);
  }

  lemma EnqueuingCounts(s: Copying, sent: nat, b: Byte)
    requires Counts(s, sent) && s.producer == Working && s.ring.tail < |s.ring.buffer|
    ensures Counts(Enqueuing(s, b), sent) && Handled(Enqueuing(s, b), sent) == Handled(s, sent)
    ensures 0 <= Handled(s, sent) ==> s.ring.count < 1024
  {}

  lemma FullRaisedCounts(s: Copying, sent: nat, next: Copying)
    requires Counts(s, sent) && s.producer == Raising && (next.producer == Lowering || next.producer == Finished)
    requires next == FullRaised(s).(pos := next.pos, second := next.second, producer := next.producer)
    ensures Counts(next, sent + 1)
  {}

  lemma ProducerLowers(wire: seq<Byte>, s: Copying, sent: nat)
    requires Linked(wire, s, sent) && s.producer == Lowering
    ensures Linked(wire, EmptyLowered(s), sent)
  {
    hide Counts, Decoded;
    EmptyLoweredCounts(s, sent);
    LoadStays(wire, s, sent, EmptyLowered(s), sent);
  }

  lemma ProducerWakes(wire: seq<Byte>, s: Copying, sent: nat)
    requires Linked(wire, s, sent) && s.producer == Waiting && !s.producerFlag
    ensures Linked(wire, s.(producer := Working), sent)
  {
    LoadStays(wire, s, sent, s.(producer := Working), sent);
  }

  lemma ProducerPuts(wire: seq<Byte>, s: Copying, sent: nat, b: Byte)
    requires Linked(wire, s, sent) && s.producer == Working && sent < |wire| && b == wire[sent]
    ensures s.ring.tail < |s.ring.buffer| && Linked(wire, Enqueuing(s, b), sent)
  {
    EnqueuingCounts(s, sent, b);
    EnqueueAppends(s.ring, b);
    assert wire[Got(s, sent)..sent + 1] == wire[Got(s, sent)..sent] + [wire[sent]];
  }

  lemma ProducerRaises(wire: seq<Byte>, s: Copying, sent: nat, next: Copying)
    requires Linked(wire, s, sent) && s.producer == Raising && (next.producer == Lowering || next.producer == Finished)
    requires next == FullRaised(s).(pos := next.pos, second := next.second, producer := next.producer)
    ensures Linked(wire, next, sent + 1)
  {
    FullRaisedCounts(s, sent, next);
    LoadStays(wire, s, sent, next, sent + 1);
  }

  lemma SentSame(src: seq<Byte>, s: Copying, s': Copying)
    requires Position(src, s) && s'.pos == s.pos && s'.second == s.second
             && (s'.producer == Finished <==> s.producer == Finished)
    ensures Position(src, s') && Sent(src, s') == Sent(src, s)
  {}

  lemma AdvancedShape(src: seq<Byte>, s: Copying)
    ensures var n := Advanced(src, s);
            n == s.(pos := n.pos, second := n.second, producer := n.producer)
            && (n.producer == Lowering || n.producer == Finished)
  {}

  lemma FullRaisedLeaves(s: Copying)
    ensures var r := FullRaised(s); r.pos == s.pos && r.second == s.second && r.producer == s.producer
  {}

  lemma ProducerGoesOn(src: seq<Byte>, wire: seq<Byte>, s: Copying)
    requires Position(src, s) && Linked(wire, s, Sent(src, s)) && s.producer == Raising
    ensures Position(src, Advanced(src, FullRaised(s)))
            && Linked(wire, Advanced(src, FullRaised(s)), Sent(src, Advanced(src, FullRaised(s))))
  {
    var r := FullRaised(s);
    FullRaisedLeaves(s);
    SentSame(src, s, r);
    AdvanceCounts(src, r);
    AdvancedShape(src, r);
    ProducerRaises(wire, s, Sent(src, s), Advanced(src, r));
  }

  /** The steps of the producer that send nothing. */
  lemma ProducerStays(src: seq<Byte>, wire: seq<Byte>, s: Copying)
    requires Position(src, s) && Linked(wire, s, Sent(src, s)) && (s.producer == Lowering || s.producer == Waiting)
    ensures Position(src, ProducerStep(src, s)) && Linked(wire, ProducerStep(src, s), Sent(src, ProducerStep(src, s)))
  {
    hide Linked, Encode;
    if s.producer == Lowering {
      ProducerLowers(wire, s, Sent(src, s));
      SentSame(src, s, EmptyLowered(s));
    } else if !s.producerFlag {
      ProducerWakes(wire, s, Sent(src, s));
      SentSame(src, s, s.(producer := Working));
    }
  }

  lemma ProducerLinks(src: seq<Byte>, wire: seq<Byte>, s: Copying)
    requires Position(src, s) && Linked(wire, s, Sent(src, s))
    requires s.producer != Finished ==> Sent(src, s) < |wire| && wire[Sent(src, s)] == Current(src, s)
    ensures Position(src, ProducerStep(src, s)) && Linked(wire, ProducerStep(src, s), Sent(src, ProducerStep(src, s)))
  {
    if s.producer == Raising {
      ProducerGoesOn(src, wire, s);
    } else if s.producer == Working {
      ProducerPuts(wire, s, Sent(src, s), Current(src, s));
      SentSame(src, s, Enqueuing(s, Current(src, s)));
    } else if s.producer != Finished {
      ProducerStays(src, wire, s);
    }
  }

  lemma ProducerKeeps(src: seq<Byte>, s: Copying)
    requires Inv(src, s)
    ensures Inv(src, ProducerStep(src, s))
  {
    if s.producer != Finished { CurrentIsNext(src, s); }
    ProducerLinks(src, Wire(src), s);
  }

  // ----- the consumer -----

  lemma DecodedBehind(out: seq<Byte>, escaped: bool, done: bool, b: Byte)
    ensures var d := Decoded(Decoder([], escaped, done), b);
            Decoded(Decoder(out, escaped, done), b) == Decoder(out + d.out, d.escaped, d.done)
  {
    assert out + [] == out;
  }

  lemma ProcessReceives(part: seq<Byte>, s: Copying)
    requires Received(part, s) && s.consumer == Raising
    ensures Received(part + [s.taken], Processed(s))
    ensures Processed(s).consumer == Finished || Processed(s).consumer == Lowering
  {
    var d := Decoded(Decoder([], s.escaped, s.done), s.taken);
    DecodeOne(part, s.taken);
    DecodedBehind(s.file + s.chunk, s.escaped, s.done, s.taken);
    assert s.file + s.chunk + d.out == s.file + (s.chunk + d.out);
    assert s.file + (s.chunk + d.out) + [] == s.file + (s.chunk + d.out);
  }

  lemma FullLoweredCounts(s: Copying, sent: nat)
    requires Counts(s, sent) && s.consumer == Lowering
    ensures Counts(FullLowered(s), sent)
  {
    hide Lowered, SemaphoreOk;
    LoweredOk(s.full);
  }

  lemma DequeuingCounts(s: Copying, sent: nat)
    requires Counts(s, sent) && s.consumer == Working && s.ring.head < |s.ring.buffer|
    ensures Counts(Dequeuing(s), sent) && Handled(Dequeuing(s), sent) == Handled(s, sent) && s.ring.count > 0
  {}

  lemma EmptyRaisedCounts(s: Copying, sent: nat, next: Copying)
    requires Counts(s, sent) && s.consumer == Raising && (next.consumer == Lowering || next.consumer == Finished)
    requires next == EmptyRaised(s).(escaped := next.escaped, done := next.done, chunk := next.chunk, file := next.file,
                                     consumer := next.consumer)
    ensures Counts(next, sent)
  {}

  lemma ConsumerTakes(wire: seq<Byte>, s: Copying, sent: nat)
    requires Linked(wire, s, sent) && s.consumer == Working
    ensures s.ring.head < |s.ring.buffer| && Linked(wire, Dequeuing(s), sent)
  {
    var got, put := Got(s, sent), Put(s, sent);
    DequeuingCounts(s, sent);
    DequeueTakes(s.ring);
    HeadAndTail(wire, got, put, s.ring.buffer[s.ring.head], Queue(Dequeued(s.ring)));
  }

  lemma HeadAndTail(wire: seq<Byte>, got: nat, put: nat, b: Byte, rest: seq<Byte>)
    requires got < put <= |wire| && [b] + rest == wire[got..put]
    ensures b == wire[got] && rest == wire[got + 1..put]
  {
    var all := [b] + rest;
    assert all[0] == b && all[1..] == rest;
    assert wire[got..put][1..] == wire[got + 1..put];
  }

  lemma ConsumerRaises(wire: seq<Byte>, s: Copying, sent: nat)
    requires Linked(wire, s, sent) && s.consumer == Raising
    ensures Linked(wire, Processed(EmptyRaised(s)), sent)
  {
    hide Decode, Decoded, Queue;
    var s', n := Processed(EmptyRaised(s)), Handled(s, sent);
    ProcessReceives(wire[..n], EmptyRaised(s));
    EmptyRaisedCounts(s, sent, s');
    assert Handled(s', sent) == n + 1;
    assert wire[..n + 1] == wire[..n] + [wire[n]];
  }

  lemma ConsumerLinks(wire: seq<Byte>, s: Copying, sent: nat)
    requires Linked(wire, s, sent)
    ensures Linked(wire, ConsumerStep(s), sent)
  {
    hide Decode, Decoded, RingOk, Queue;
    if s.consumer == Lowering {
      FullLoweredCounts(s, sent);
      LoadStays(wire, s, sent, FullLowered(s), sent);
    } else if s.consumer == Waiting {
      LoadStays(wire, s, sent, ConsumerStep(s), sent);
    } else if s.consumer == Working {
      ConsumerTakes(wire, s, sent);
    } else if s.consumer == Raising {
      ConsumerRaises(wire, s, sent);
    }
  }

  lemma ProcessedLeaves(s: Copying)
    ensures var s' := Processed(s);
            s'.pos == s.pos && s'.second == s.second && s'.producer == s.producer && s'.ring == s.ring
    ensures Processed(s).consumer == Lowering || Processed(s).consumer == Finished
  {}

  lemma ConsumerLeaves(s: Copying)
    ensures var s' := ConsumerStep(s); s'.pos == s.pos && s'.second == s.second && s'.producer == s.producer
  {
    if s.consumer == Raising { ProcessedLeaves(EmptyRaised(s)); }
  }

  lemma ConsumerSends(src: seq<Byte>, s: Copying)
    requires Position(src, s)
    ensures Position(src, ConsumerStep(s)) && Sent(src, ConsumerStep(s)) == Sent(src, s)
  {
    ConsumerLeaves(s);
    SentSame(src, s, ConsumerStep(s));
  }

  lemma ConsumerKeeps(src: seq<Byte>, s: Copying)
    requires Inv(src, s)
    ensures Inv(src, ConsumerStep(s)) && Sent(src, ConsumerStep(s)) == Sent(src, s)
  {
    ConsumerSends(src, s);
    ConsumerLinks(Wire(src), s, Sent(src, s));
  }

  lemma {:induction false} RunKeeps(src: seq<Byte>, s: Copying, schedule: seq<Thread>)
    requires Inv(src, s)
    ensures Inv(src, Run(src, s, schedule))
    decreases |schedule|
  {
    if schedule != [] {
      ProducerKeeps(src, s);
      ConsumerKeeps(src, s);
      RunKeeps(src, Step(src, s, schedule[0]), schedule[1..]);
    }
  }

  // ----- what that means -----

  /** In every interleaving the ring's count stays in range, and what the consumer has decoded is a
      beginning of the source; when it is done, it is all of the source, and all in the file. The
      two threads are never both blocked on their semaphores. */
  lemma CopiesFaithfully(src: seq<Byte>, memory: seq<Byte>, schedule: seq<Thread>)
    requires |memory| == 1024
    ensures Faithful(src, Run(src, Start(memory), schedule))
  {
    StartInv(src, memory);
    RunFaithful(src, Start(memory), schedule);
  }

  predicate Faithful(src: seq<Byte>, s: Copying) {
    && 0 <= s.ring.count <= 1024
    && s.file + s.chunk <= src
    && (s.done ==> s.file == src)
    && !(Blocked(s.producer, s.producerFlag) && Blocked(s.consumer, s.consumerFlag))
  }

  lemma RunFaithful(src: seq<Byte>, s: Copying, schedule: seq<Thread>)
    requires Inv(src, s)
    ensures Faithful(src, Run(src, s, schedule))
  {
    RunKeeps(src, s, schedule);
    InvMeans(src, Run(src, s, schedule));
  }

  lemma InvMeans(src: seq<Byte>, s: Copying)
    requires Inv(src, s)
    ensures Faithful(src, s)
  {
    DecodePrefix(src, Handled(s, Sent(src, s)));
    assert s.done ==> s.file + [] == s.file;
  }

  // ----- it finishes -----

  function Rank(stage: Stage): nat {
    match stage case Lowering => 4 case Waiting => 3 case Working => 2 case Raising => 1 case Finished => 0
  }

  /** Steps still to do: at most four for each byte of the wire, on either side. */
  function Work(length: nat, s: Copying, sent: nat): int {
    4 * (length - sent) + Rank(s.producer) + 4 * (length - Handled(s, sent)) + Rank(s.consumer)
  }

  ghost function Left(src: seq<Byte>, s: Copying): int
    requires s.pos <= |src|
  {
    Work(|Wire(src)|, s, Sent(src, s))
  }

  lemma LeftBounded(src: seq<Byte>, s: Copying)
    requires Inv(src, s)
    ensures Left(src, s) >= 0
  {}

  lemma ProducerSendsMoves(length: nat, src: seq<Byte>, s: Copying)
    requires Position(src, s) && s.producer == Raising
    ensures var s' := Advanced(src, FullRaised(s));
            Position(src, s') && Work(length, s', Sent(src, s')) < Work(length, s, Sent(src, s))
  {
    AdvanceCounts(src, FullRaised(s));
  }

  lemma ProducerMoves(length: nat, src: seq<Byte>, s: Copying)
    requires Position(src, s) && s.producer != Finished && !Blocked(s.producer, s.producerFlag)
             && s.ring.tail < |s.ring.buffer|
    ensures Position(src, ProducerStep(src, s))
    ensures Work(length, ProducerStep(src, s), Sent(src, ProducerStep(src, s))) < Work(length, s, Sent(src, s))
  {
    hide Sent, Advanced, FullRaised, Lowered, Encode, Raised, Position;
    if s.producer == Raising {
      ProducerSendsMoves(length, src, s);
    } else {
      SentSame(src, s, ProducerStep(src, s));
    }
  }

  lemma ProducerWorks(src: seq<Byte>, s: Copying)
    requires Inv(src, s) && s.producer != Finished && !Blocked(s.producer, s.producerFlag)
    ensures Inv(src, ProducerStep(src, s)) && 0 <= Left(src, ProducerStep(src, s)) < Left(src, s)
  {
    ProducerKeeps(src, s);
    LeftBounded(src, ProducerStep(src, s));
    ProducerRoom(src, s);
    ProducerMoves(|Wire(src)|, src, s);
  }

  lemma ProducerRoom(src: seq<Byte>, s: Copying)
    requires Inv(src, s)
    ensures s.ring.tail < |s.ring.buffer| && s.ring.head < |s.ring.buffer|
  {}

  lemma ConsumerWorks(src: seq<Byte>, s: Copying)
    requires Inv(src, s) && s.consumer != Finished && !Blocked(s.consumer, s.consumerFlag)
    ensures Inv(src, ConsumerStep(s)) && 0 <= Left(src, ConsumerStep(s)) < Left(src, s)
  {
    ConsumerKeeps(src, s);
    LeftBounded(src, ConsumerStep(s));
    ProducerRoom(src, s);
    ConsumerMoves(|Wire(src)|, s, Sent(src, s));
  }

  lemma ConsumerMoves(length: nat, s: Copying, sent: nat)
    requires s.consumer != Finished && !Blocked(s.consumer, s.consumerFlag) && s.ring.head < |s.ring.buffer|
    ensures Work(length, ConsumerStep(s), sent) < Work(length, s, sent)
  {
    ConsumerLeaves(s);
    var s' := ConsumerStep(s);
    if s.consumer == Raising {
      ProcessedLeaves(EmptyRaised(s));
    } else if s.consumer == Working {
      assert s'.ring.count == s.ring.count - 1;
    } else {
      assert s'.ring == s.ring && Rank(s'.consumer) < Rank(s.consumer);
    }
  }

  /** When everything was sent, the consumer is not left waiting for more. */
  lemma NotLeftWaiting(src: seq<Byte>, s: Copying)
    requires Inv(src, s) && s.producer == Finished && s.consumer != Finished
    ensures !Blocked(s.consumer, s.consumerFlag)
  {
    if Blocked(s.consumer, s.consumerFlag) {
      assert src[..s.pos] == src;
      assert Handled(s, Sent(src, s)) == |Wire(src)|;
      DecodePrefix(src, |Wire(src)|);
    }
  }

  /** A step of a thread either is one turn of its wait loop, or its thread has finished, or it
      brings the copy closer to its end. */
  lemma StepWorks(src: seq<Byte>, s: Copying, t: Thread)
    requires Inv(src, s)
    ensures var s' := Step(src, s, t); Inv(src, s') && (s' == s || 0 <= Left(src, s') < Left(src, s))
  {
    if t == Producer {
      if s.producer != Finished && !Blocked(s.producer, s.producerFlag) { ProducerWorks(src, s); }
    } else {
      if s.consumer != Finished && !Blocked(s.consumer, s.consumerFlag) { ConsumerWorks(src, s); }
    }
  }

  /** And while the consumer is not done, one of the two threads can make such a step. */
  lemma SomeoneCanWork(src: seq<Byte>, s: Copying) returns (t: Thread)
    requires Inv(src, s) && s.consumer != Finished
    ensures var s' := Step(src, s, t); Inv(src, s') && 0 <= Left(src, s') < Left(src, s)
  {
    if !Blocked(s.consumer, s.consumerFlag) {
      t := Consumer;
      ConsumerWorks(src, s);
    } else {
      t := Producer;
      if s.producer == Finished { NotLeftWaiting(src, s); }
      ProducerWorks(src, s);
    }
  }
}
