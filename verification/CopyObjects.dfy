/** The shared queue, the semaphores and the two threads' own loops in the form the copy program has
    them, proved against the functions of Copy. */
module CopyObjects {
  import opened Copy

  class ProtectedQueue {
    var head: nat
    var tail: nat
    var count: int
    const buffer: array<Byte>

    constructor ()
      ensures View() == EmptyRing(buffer[..]) && RingOk(View()) && Queue(View()) == [] && fresh(buffer)
    {
      head, tail, count := 0, 0, 0;
      buffer := new Byte[1024](_ => 0);
    }

    ghost function View(): Ring
      reads this, buffer
    {
      Ring(head, tail, count, buffer[..])
    }

    method Enqueue(b: Byte)
      requires RingOk(View()) && count < 1024
      modifies this, buffer
      ensures View() == Enqueued(old(View()), b)
      ensures RingOk(View()) && Queue(View()) == Queue(old(View())) + [b]
    {
      EnqueueAppends(View(), b);
      buffer[tail] := b;
      tail := tail + 1;
      tail := tail % 1024;
      count := count + 1;
    }

    method Dequeue() returns (b: Byte)
      requires RingOk(View()) && count > 0
      modifies this
      ensures View() == Dequeued(old(View())) && b == old(buffer[head])
      ensures RingOk(View()) && [b] + Queue(View()) == Queue(old(View()))
    {
      DequeueTakes(View());
      b := buffer[head];
      head := head + 1;
      head := head % 1024;
      count := count - 1;
    }
  }

  /** A waiter's node: the flag it spins on. */
  class WaitNode {
    var flag: bool
    var next: WaitNode?

    constructor ()
      ensures !flag && next == null
    {
      flag, next := false, null;
    }
  }

  class CountingSemaphore {
    var value: int
    var waits: nat
    var head: WaitNode?
    var tail: WaitNode?

    constructor (initial: int)
      ensures View() == Semaphore(initial, false, false)
    {
      value, waits, head, tail := initial, 0, null, null;
    }

    function View(): Semaphore
      reads this
    {
      Semaphore(value, head != null, tail != null)
    }

    /** Down up to its wait loop: the caller goes on at once, or waits for its flag. */
    method Down(node: WaitNode) returns (wait: bool)
      modifies this, node
      ensures (View(), wait) == Lowered(old(View()))
      ensures wait ==> node.flag && node.next == null && head == if old(tail) == null then node else old(head)
      ensures waits == old(waits) + if wait then 1 else 0
      ensures !wait ==>
                node.flag == old(node.flag) && node.next == old(node.next) && head == old(head) && tail == old(tail)
    {
      value := value - 1;
      wait := value < 0;
      if wait {
        waits := waits + 1;
        node.flag := true;
        node.next := null;
        if tail == null {
          head := node;
          tail := node;
        }
      }
    }

    /** Up: the first waiter, if there is one, has its flag cleared. */
    method Up() returns (ghost woken: bool)
      requires head != null ==> head.next == null
      modifies this, head
      ensures (View(), woken) == Raised(old(View()))
      ensures waits == old(waits)
      ensures woken ==> old(head) != null && !old(head).flag && head == null
      ensures old(head) != null ==> old(head).next == null
      ensures !woken && old(head) != null ==> head == old(head) && head.flag == old(head.flag)
    {
      woken := false;
      value := value + 1;
      if value <= 0 {
        if head != null {
          var node := head;
          head := node.next;
          if head == null { tail := null; }
          node.flag := false;
          woken := true;
        }
      }
    }
  }

  lemma StuffedNext(src: seq<Byte>, p: nat)
    requires p < |src|
    ensures src[p] != END && src[p] != ESC ==> Encode(src[..p + 1]) == Encode(src[..p]) + [src[p]]
    ensures src[p] == END ==> Encode(src[..p + 1]) == Encode(src[..p]) + [ESC] + [ESC_END]
    ensures src[p] == ESC ==> Encode(src[..p + 1]) == Encode(src[..p]) + [ESC] + [ESC_ESC]
  {
    hide Encode;
    CodePrefix(src, p);
    assert forall c :: Encode(src[..p]) + [ESC, c] == Encode(src[..p]) + [ESC] + [c];
  }

  /** The producer's loops: the source is read 127 bytes at a time, and every byte is sent as its
      code, the end marker last. */
  method Stuff(src: seq<Byte>) returns (wire: seq<Byte>)
    ensures wire == Wire(src)
  {
    wire := [];
    var start := 0;
    assert src[..0] == [] && Encode([]) == [] && Wire(src) == Encode(src) + [END];
    hide Encode, Wire, Code;
    while start < |src|
      invariant start <= |src| && wire == Encode(src[..start])
    {
      var stop := if |src| - start < 127 then |src| else start + 127;
      var chunk := src[start..stop];
      for i := 0 to |chunk|
        invariant wire == Encode(src[..start + i])
      {
        assert chunk[i] == src[start + i];
        StuffedNext(src, start + i);
        if chunk[i] != END && chunk[i] != ESC {
          wire := wire + [chunk[i]];
        } else {
          wire := wire + [ESC];
          if chunk[i] == END { wire := wire + [ESC_END]; } else { wire := wire + [ESC_ESC]; }
        }
      }
      start := stop;
    }
    assert src[..start] == src;
    wire := wire + [END];
  }

  /** The consumer's loops: bytes are taken until the end marker, and written out 33 at a time. */
  method Unstuff(wire: seq<Byte>, ghost src: seq<Byte>) returns (file: seq<Byte>)
    requires wire == Wire(src)
    ensures file == src
  {
    file := [];
    var chunk: seq<Byte>, escaped, next, done := [], false, 0, false;
    while !done
      invariant next <= |wire| && (done <==> next == |wire|) && |chunk| < 33 && (done ==> chunk == [])
      invariant Decode(wire[..next]) == Decoder(file + chunk, escaped, done)
      decreases |wire| - next
    {
      var b := wire[next];
      assert wire[..next + 1] == wire[..next] + [b];
      DecodeOne(wire[..next], b);
      DecodePrefix(src, next + 1);
      next := next + 1;
      ghost var before := file + chunk;
      if escaped {
        chunk, escaped := chunk + [if b == ESC_END then END else ESC], false;
        assert file + chunk == before + [if b == ESC_END then END else ESC];
      } else if b == ESC {
        escaped := true;
      } else if b == END {
        done := true;
      } else {
        chunk := chunk + [b];
        assert file + chunk == before + [b];
      }
      if done || |chunk| == 33 {
        assert file + chunk == (file + chunk) + [];
        file, chunk := file + chunk, [];
      }
    }
    assert file + [] == file;
    DecodePrefix(src, |wire|);
  }
}
