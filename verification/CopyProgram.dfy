/** The copy program as one object: the shared queue, the two semaphores with the wait nodes of their
    callers, and where each thread is. Every critical section is one method, and `Perform` shows
    that the objects follow any schedule of the step system. */
module CopyProgram {
  import opened Copy
  import opened CopyRuns
  import opened CopyObjects

  class CopyFile {
    const src: seq<Byte>
    const queue: ProtectedQueue
    const empty: CountingSemaphore
    const full: CountingSemaphore
    const producerNode: WaitNode
    const consumerNode: WaitNode
    var pos: nat
    var second: bool
    var producer: Stage
    var consumer: Stage
    var taken: Byte
    var escaped: bool
    var done: bool
    var chunk: seq<Byte>
    var file: seq<Byte>

    constructor (src: seq<Byte>)
      ensures Valid() && this.src == src && fresh(Objects())
      ensures exists memory :: |memory| == 1024 && View() == Start(memory)
    {
      this.src := src;
      var q := new ProtectedQueue();
      var e := new CountingSemaphore(1024);
      var f := new CountingSemaphore(0);
      queue, empty, full := q, e, f;
      var p := new WaitNode();
      var c := new WaitNode();
      producerNode, consumerNode := p, c;
      pos, second, producer, consumer := 0, false, Lowering, Lowering;
      taken, escaped, done, chunk, file := 0, false, false, [], [];
      new;
      StartInv(src, queue.buffer[..]);
      assert View() == Start(queue.buffer[..]);
    }

    ghost function Objects(): set<object> { {this, queue, queue.buffer, empty, full, producerNode, consumerNode} }

    ghost function View(): Copying
      reads Objects()
    {
      Copying(pos, second, producer, producerNode.flag, consumer, consumerNode.flag, taken, escaped, done, chunk, file,
              empty.View(), full.View(), queue.View())
    }

    /** Each semaphore has at most one waiter, whose node is its caller's. */
    ghost predicate Wired()
      reads empty, full, producerNode, consumerNode
    {
      && empty != full && producerNode != consumerNode
      && empty.head in {null, producerNode} && full.head in {null, consumerNode}
      && (empty.head != null ==> producerNode.next == null) && (full.head != null ==> consumerNode.next == null)
    }

    ghost predicate Valid()
      reads Objects()
    {
      Wired() && Inv(src, View())
    }

    // ----- the producer's critical sections -----

    /** Down(&Empty), up to its wait loop. */
    method LowerEmpty()
      requires Wired()
      modifies this`producer, empty, producerNode
      ensures Wired() && View() == EmptyLowered(old(View()))
    {
      ghost var s := View();
      var wait := empty.Down(producerNode);
      producer := if wait then Waiting else Working;
      assert (empty.View(), wait) == Lowered(s.empty);
    }

    /** The byte the producer sends: the code of the next source byte, or the end marker. */
    method NextByte() returns (b: Byte)
      requires pos < |src| || !second
      ensures b == CopyRuns.Current(src, View())
    {
      if pos >= |src| { return END; }
      if src[pos] != END && src[pos] != ESC { return src[pos]; }
      if !second { return ESC; }
      b := if src[pos] == END then ESC_END else ESC_ESC;
    }

    method EnqueueNext()
      requires Wired() && (pos < |src| || !second) && RingOk(queue.View()) && queue.count < 1024
      modifies this`producer, queue, queue.buffer
      ensures Wired() && View() == Enqueuing(old(View()), CopyRuns.Current(src, old(View())))
    {
      var b := NextByte();
      queue.Enqueue(b);
      producer := Raising;
    }

    /** Up(&Full). */
    method RaiseFull()
      requires Wired()
      modifies full, consumerNode
      ensures Wired() && View() == FullRaised(old(View()))
    {
      ghost var s := View();
      ghost var woken := full.Up();
      assert (full.View(), woken) == Raised(s.full);
      assert consumerNode.flag == if woken then false else s.consumerFlag;
    }

    /** On to the next byte. */
    method Advance()
      modifies this`producer, this`pos, this`second
      ensures View() == Advanced(src, old(View()))
    {
      if pos >= |src| {
        producer := Finished;
      } else if !second && (src[pos] == END || src[pos] == ESC) {
        second, producer := true, Lowering;
      } else {
        pos, second, producer := pos + 1, false, Lowering;
      }
    }

    method StepProducer()
      requires Valid()
      modifies Objects()
      ensures Valid() && View() == ProducerStep(src, old(View()))
    {
      hide EmptyLowered, Advanced, FullRaised, Received, Lowered, Raised, Wired;
      ghost var s := View();
      ProducerKeeps(src, s);
      ProducerRoom(src, s);
      match producer {
        case Lowering => LowerEmpty();
        case Waiting => if !producerNode.flag { producer := Working; }
        case Working =>
          EnqueuingCounts(s, Sent(src, s), 0);
          EnqueueNext();
        case Raising =>
          RaiseFull();
          Advance();
        case Finished =>
      }
      assert View() == ProducerStep(src, s);
    }

    // ----- the consumer's critical sections -----

    /** Down(&Full), up to its wait loop. */
    method LowerFull()
      requires Wired()
      modifies this`consumer, full, consumerNode
      ensures Wired() && View() == FullLowered(old(View()))
    {
      ghost var s := View();
      var wait := full.Down(consumerNode);
      consumer := if wait then Waiting else Working;
      assert (full.View(), wait) == Lowered(s.full);
    }

    method DequeueNext()
      requires Wired() && RingOk(queue.View()) && queue.count > 0
      modifies this`consumer, this`taken, queue
      ensures Wired() && View() == Dequeuing(old(View()))
    {
      ghost var s := View();
      var b := queue.Dequeue();
      taken, consumer := b, Raising;
      assert View().ring == Dequeued(s.ring);
    }

    /** Up(&Empty). */
    method RaiseEmpty()
      requires Wired()
      modifies empty, producerNode
      ensures Wired() && View() == EmptyRaised(old(View()))
    {
      ghost var s := View();
      ghost var woken := empty.Up();
      assert (empty.View(), woken) == Raised(s.empty);
      assert producerNode.flag == if woken then false else s.producerFlag;
    }

    /** What is done with the byte taken: it is unstuffed, and the buffer is written out when it is full
        or the end is reached. */
    method Process()
      requires !done && |chunk| < 33
      modifies this`consumer, this`escaped, this`done, this`chunk, this`file
      ensures View() == Processed(old(View()))
    {
      ghost var s := View();
      ghost var d := Decoded(Decoder([], escaped, done), taken);
      consumer := Lowering;
      if escaped {
        chunk, escaped := chunk + [if taken == ESC_END then END else ESC], false;
      } else if taken == ESC {
        escaped := true;
      } else if taken == END {
        done, consumer := true, Finished;
      } else {
        chunk := chunk + [taken];
      }
      Behind(s.chunk, s.escaped, taken);
      assert chunk == s.chunk + d.out && escaped == d.escaped && done == d.done;
      hide Decoded;
      if done || |chunk| == 33 { file, chunk := file + chunk, []; }
    }

    method StepConsumer()
      requires Valid()
      modifies Objects()
      ensures Valid() && View() == ConsumerStep(old(View()))
    {
      hide FullLowered, EmptyRaised, Lowered, Raised, Processed, Wired;
      ghost var s := View();
      ConsumerKeeps(src, s);
      ProducerRoom(src, s);
      match consumer {
        case Lowering => LowerFull();
        case Waiting => if !consumerNode.flag { consumer := Working; }
        case Working =>
          DequeuingCounts(s, Sent(src, s));
          DequeueNext();
        case Raising =>
          RaiseEmpty();
          Process();
        case Finished =>
      }
      assert View() == ConsumerStep(s);
    }

    /** One turn of either thread is one step. */
    method Perform(t: Thread)
      requires Valid()
      modifies Objects()
      ensures Valid() && View() == Step(src, old(View()), t)
    {
      if t == Producer { StepProducer(); } else { StepConsumer(); }
    }
  }

  /** Any schedule, on the objects: what the consumer has is a beginning of the source, and when it is
      done, the file is the source. */
  method CopyBySchedule(src: seq<Byte>, schedule: seq<Thread>) returns (task: CopyFile)
    ensures task.Valid() && fresh(task.Objects()) && Faithful(src, task.View())
    ensures exists memory :: |memory| == 1024 && task.View() == Run(src, Start(memory), schedule)
  {
    task := new CopyFile(src);
    ghost var memory :| |memory| == 1024 && task.View() == Start(memory);
    for i := 0 to |schedule|
      invariant task.Valid() && task.src == src && fresh(task.Objects())
      invariant Run(src, task.View(), schedule[i..]) == Run(src, Start(memory), schedule)
    {
      assert schedule[i..][1..] == schedule[i + 1..];
      task.Perform(schedule[i]);
    }
    InvMeans(src, task.View());
  }

  lemma Behind(chunk: seq<Byte>, escaped: bool, b: Byte)
    ensures chunk + Decoded(Decoder([], escaped, false), b).out ==
            if escaped then chunk + [if b == ESC_END then END else ESC]
            else if b == ESC || b == END then chunk
            else chunk + [b]
  {}
}
