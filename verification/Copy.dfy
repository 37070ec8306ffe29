/** The copy program's two threads as a step system. Each critical section is one step; in between
    the threads interleave in any way. Bytes are stuffed with two escape codes, pass through a ring
    of 1024, and are guarded by two semaphores built from a counter and a wait node. */
module Copy {

  type Byte = b: nat | b < 0x100

  const END: Byte := 0xC0
  const ESC: Byte := 0xDB
  const ESC_END: Byte := 0xDD
  const ESC_ESC: Byte := 0xDC

  // ----- the ring -----

  datatype Ring = Ring(head: nat, tail: nat, count: int, buffer: seq<Byte>)

  function EmptyRing(memory: seq<Byte>): Ring { Ring(0, 0, 0, memory) }

  predicate RingOk(r: Ring) {
    && |r.buffer| == 1024 && r.head < 1024 && 0 <= r.count <= 1024
    && r.tail == (r.head + r.count) % 1024
  }

  function Enqueued(r: Ring, b: Byte): Ring
    requires r.tail < |r.buffer|
  {
    Ring(r.head, (r.tail + 1) % 1024, r.count + 1, r.buffer[r.tail := b])
  }

  function Dequeued(r: Ring): Ring { Ring((r.head + 1) % 1024, r.tail, r.count - 1, r.buffer) }

  /** The bytes in the ring, oldest first. */
  function Queue(r: Ring): seq<Byte>
    requires RingOk(r)
  {
    seq(r.count, k requires 0 <= k < r.count => r.buffer[(r.head + k) % 1024])
  }

  lemma EnqueueAppends(r: Ring, b: Byte)
    requires RingOk(r) && r.count < 1024
    ensures RingOk(Enqueued(r, b)) && Queue(Enqueued(r, b)) == Queue(r) + [b]
  {
    TailMoves(r.head, r.count);
    forall k | 0 <= k < r.count ensures Queue(Enqueued(r, b))[k] == Queue(r)[k] { PlacesApart(r.head, k, r.count); }
  }

  lemma TailMoves(head: nat, count: nat)
    requires head < 1024 && count < 1024
    ensures ((head + count) % 1024 + 1) % 1024 == (head + count + 1) % 1024
  {}

  lemma PlacesApart(head: nat, j: nat, k: nat)
    requires head < 1024 && j < k < 1024
    ensures (head + j) % 1024 != (head + k) % 1024
  {}

  lemma DequeueTakes(r: Ring)
    requires RingOk(r) && r.count > 0
    ensures RingOk(Dequeued(r)) && [r.buffer[r.head]] + Queue(Dequeued(r)) == Queue(r)
  {
    assert Queue(r)[0] == r.buffer[r.head];
  }

  // ----- a semaphore with one possible waiter -----

  /** head and tail say whether the wait node is linked; the node's flag is the waiter's own. */
  datatype Semaphore = Semaphore(value: int, head: bool, tail: bool)

  /** Down: the counter goes down, and below zero the caller's node is linked and its flag set. */
  function Lowered(s: Semaphore): (Semaphore, bool) {
    if s.value - 1 < 0 then (Semaphore(s.value - 1, if s.tail then s.head else true, true), true)
    else (s.(value := s.value - 1), false)
  }

  /** Up: the counter goes up, and if someone waits the node is unlinked and its flag cleared. */
  function Raised(s: Semaphore): (Semaphore, bool) {
    if s.value + 1 <= 0 && s.head then (Semaphore(s.value + 1, false, false), true)
    else (s.(value := s.value + 1), false)
  }

  // ----- byte stuffing -----

  function Code(b: Byte): seq<Byte> { if b == END then [ESC, ESC_END] else if b == ESC then [ESC, ESC_ESC] else [b] }

  /** The codes in bytes: 192 and 219 take two bytes each, every other byte stands for itself. */
  lemma CodesInBytes(b: Byte)
    ensures Code(b) == if b == 192 then [219, 221] else if b == 219 then [219, 220] else [b]
    ensures Wire([]) == [192]
  {}

  function Encode(src: seq<Byte>): seq<Byte> { if src == [] then [] else Code(src[0]) + Encode(src[1..]) }

  /** Everything the producer enqueues. */
  function Wire(src: seq<Byte>): seq<Byte> { Encode(src) + [END] }

  datatype Decoder = Decoder(out: seq<Byte>, escaped: bool, done: bool)

  function Decoded(d: Decoder, b: Byte): Decoder {
    if d.done then d
    else if d.escaped then Decoder(d.out + [if b == ESC_END then END else ESC], false, false)
    else if b == ESC then d.(escaped := true)
    else if b == END then d.(done := true)
    else d.(out := d.out + [b])
  }

  function Decode(bytes: seq<Byte>): Decoder {
    if bytes == [] then Decoder([], false, false) else Decoded(Decode(bytes[..|bytes| - 1]), bytes[|bytes| - 1])
  }

  lemma DecodeOne(a: seq<Byte>, b: Byte)
    ensures Decode(a + [b]) == Decoded(Decode(a), b)
  {
    assert (a + [b])[..|a|] == a;
  }

  lemma {:induction false} EncodeConcat(a: seq<Byte>, b: seq<Byte>)
    ensures Encode(a + b) == Encode(a) + Encode(b)
  {
    if a == [] {
      assert a + b == b;
    } else {
      assert (a + b)[1..] == a[1..] + b;
      EncodeConcat(a[1..], b);
    }
  }

  lemma EncodeOne(a: seq<Byte>, b: Byte)
    ensures Encode(a + [b]) == Encode(a) + Code(b)
  {
    EncodeConcat(a, [b]);
    assert [b][1..] == [];
  }

  /** Decoding a byte's code appends that byte. */
  lemma DecodeCode(a: seq<Byte>, out: seq<Byte>, b: Byte)
    requires Decode(a) == Decoder(out, false, false)
    ensures Decode(a + Code(b)) == Decoder(out + [b], false, false)
    ensures |Code(b)| == 2 ==> Decode(a + [ESC]) == Decoder(out, true, false) && Code(b)[0] == ESC
  {
    if |Code(b)| == 2 {
      DecodeOne(a, ESC);
      DecodeOne(a + [ESC], Code(b)[1]);
      assert a + Code(b) == a + [ESC] + [Code(b)[1]];
    } else {
      DecodeOne(a, b);
    }
  }

  lemma {:induction false} DecodeEncoded(src: seq<Byte>)
    ensures Decode(Encode(src)) == Decoder(src, false, false)
  {
    if src != [] {
      var a, b := src[..|src| - 1], src[|src| - 1];
      assert src == a + [b];
      DecodeEncoded(a);
      EncodeOne(a, b);
      DecodeCode(Encode(a), a, b);
    }
  }

  /** Unstuffing undoes stuffing, and the end is seen at the end marker. */
  lemma DecodeWire(src: seq<Byte>)
    ensures Decode(Wire(src)) == Decoder(src, false, true)
  {
    DecodeEncoded(src);
    DecodeOne(Encode(src), END);
  }

  lemma Parts(src: seq<Byte>, p: nat)
    requires p <= |src|
    ensures Encode(src) == Encode(src[..p]) + Encode(src[p..])
  {
    assert src == src[..p] + src[p..];
    EncodeConcat(src[..p], src[p..]);
  }

  /** The bytes of the source's first p + 1 bytes on the wire: those of its first p, then one code. */
  lemma CodePrefix(src: seq<Byte>, p: nat)
    requires p < |src|
    ensures Encode(src[..p + 1]) == Encode(src[..p]) + Code(src[p])
    ensures Encode(src) == Encode(src[..p + 1]) + Encode(src[p + 1..])
  {
    OneMore(src, src[..p], src[..p + 1], src[p]);
    Parts(src, p + 1);
  }

  lemma OneMore(src: seq<Byte>, a: seq<Byte>, a1: seq<Byte>, b: Byte)
    requires |a| < |src| && a == src[..|a|] && b == src[|a|] && a1 == src[..|a| + 1]
    ensures Encode(a1) == Encode(a) + Code(b)
  {
    assert a1 == a + [b];
    EncodeOne(a, b);
  }

  /** Any part of the wire, from its start, decodes to a part of the source from its start. */
  lemma {:induction false} DecodePart(src: seq<Byte>, p: nat, k: nat)
    requires p <= |src| && |Encode(src[..p])| <= k <= |Encode(src)|
    ensures var d := Decode(Wire(src)[..k]); d.out <= src && !d.done
    decreases |src| - p
  {
    if p < |src| {
      CodePrefix(src, p);
      var a := Encode(src[..p]);
      if k >= |Encode(src[..p + 1])| {
        DecodePart(src, p + 1, k);
      } else {
        DecodeEncoded(src[..p]);
        DecodeCode(a, src[..p], src[p]);
        assert Wire(src)[..k] == if k == |a| then a else a + [ESC];
      }
    } else {
      assert src[..p] == src;
      DecodeEncoded(src);
      assert Wire(src)[..k] == Encode(src);
    }
  }

  lemma DecodePrefix(src: seq<Byte>, k: nat)
    requires k <= |Wire(src)|
    ensures var d := Decode(Wire(src)[..k]); d.out <= src && (d.done <==> k == |Wire(src)|) && (d.done ==> d.out == src)
  {
    if k == |Wire(src)| {
      DecodeWire(src);
      assert Wire(src)[..k] == Wire(src);
    } else {
      DecodePart(src, 0, k);
    }
  }
}
