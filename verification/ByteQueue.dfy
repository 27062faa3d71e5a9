/** What a `DataBuffer` promises: a byte queue, laid out in a storage block.

A `View` is the observable part of a buffer: how large its storage is, how many free bytes lie
in front of the content, and the content itself. `Apply` says what each operation does to a view;
the class in DataBuffer.dfy is proved to do exactly that on a real array.
 */
module ByteQueue {
  import opened Bytes

  datatype View = View(capacity: nat, reader: nat, content: bytes) {

    ghost predicate Valid() {
      reader + |content| <= capacity
    }

    function Writable(): nat
      requires Valid()
    {
      capacity - reader - |content|
    }
  }

  datatype Op =
    | Append(data: bytes)
    | EnsureWritable(len: nat)
    | Receive(data: bytes)     // bytes placed behind the content from outside, then hasWritten
    | Retrieve(len: nat)
    | RetrieveAll
    | Unwrite(len: nat)
    | Prepend(data: bytes)

  /** Room for `len` more bytes: nothing to do, or grow, or move the content to the front. */
  function MakeRoom(v: View, len: nat): (r: View)
    requires v.Valid()
    ensures r.Valid() && r.Writable() >= len && r.content == v.content
  {
    if v.Writable() >= len then v
    else if v.Writable() + v.reader < len then v.(capacity := v.reader + |v.content| + len)
    else v.(reader := 0)
  }

  /** The assertion that the operation makes about its argument. */
  predicate Permitted(v: View, op: Op)
    requires v.Valid()
  {
    match op
    case Append(_) => true
    case EnsureWritable(_) => true
    case Receive(data) => |data| <= v.Writable()
    case Retrieve(len) => len <= |v.content|
    case RetrieveAll => true
    case Unwrite(len) => len <= |v.content|
    case Prepend(data) => |data| <= v.reader
  }

  function Apply(v: View, op: Op): (r: View)
    requires v.Valid() && Permitted(v, op)
    ensures r.Valid()
  {
    match op
    case Append(data) =>
      var w := MakeRoom(v, |data|);
      w.(content := w.content + data)
    case EnsureWritable(len) => MakeRoom(v, len)
    case Receive(data) => v.(content := v.content + data)
    case Retrieve(len) =>
      if len < |v.content| then v.(reader := v.reader + len, content := v.content[len..])
      else v.(reader := 0, content := [])
    case RetrieveAll => v.(reader := 0, content := [])
    case Unwrite(len) => v.(content := v.content[..|v.content| - len])
    case Prepend(data) => v.(reader := v.reader - |data|, content := data + v.content)
  }

  predicate RunPermitted(v: View, ops: seq<Op>)
    requires v.Valid()
    decreases |ops|
  {
    ops == [] || (Permitted(v, ops[0]) && RunPermitted(Apply(v, ops[0]), ops[1..]))
  }

  function Run(v: View, ops: seq<Op>): (r: View)
    requires v.Valid() && RunPermitted(v, ops)
    ensures r.Valid()
    decreases |ops|
  {
    if ops == [] then v else Run(Apply(v, ops[0]), ops[1..])
  }

  /// The plain queue: no storage, no indices.

  predicate QueuePermits(q: bytes, op: Op) {
    match op
    case Retrieve(len) => len <= |q|
    case Unwrite(len) => len <= |q|
    case _ => true
  }

  function QueueApply(q: bytes, op: Op): bytes
    requires QueuePermits(q, op)
  {
    match op
    case Append(data) => q + data
    case EnsureWritable(_) => q
    case Receive(data) => q + data
    case Retrieve(len) => q[len..]
    case RetrieveAll => []
    case Unwrite(len) => q[..|q| - len]
    case Prepend(data) => data + q
  }

  predicate QueueRunPermitted(q: bytes, ops: seq<Op>)
    decreases |ops|
  {
    ops == [] || (QueuePermits(q, ops[0]) && QueueRunPermitted(QueueApply(q, ops[0]), ops[1..]))
  }

  function QueueRun(q: bytes, ops: seq<Op>): bytes
    requires QueueRunPermitted(q, ops)
    decreases |ops|
  {
    if ops == [] then q else QueueRun(QueueApply(q, ops[0]), ops[1..])
  }

  /** Operations that a caller can issue without looking at the layout. */
  predicate LayoutFree(op: Op) {
    !op.Prepend? && !op.Receive?
  }

  /** Over every run that the buffer's assertions let through, the content is the plain queue's. */
  lemma {:induction false} RunRefinesQueue(v: View, ops: seq<Op>)
    requires v.Valid() && RunPermitted(v, ops)
    ensures QueueRunPermitted(v.content, ops)
    ensures Run(v, ops).content == QueueRun(v.content, ops)
    decreases |ops|
  {
    if ops != [] {
      assert Apply(v, ops[0]).content == QueueApply(v.content, ops[0]);
      RunRefinesQueue(Apply(v, ops[0]), ops[1..]);
    }
  }

  /** Compaction and growth cannot be observed: the queue alone decides whether a run of
      layout-free operations goes through, whatever the storage looks like. */
  lemma {:induction false} LayoutIsInvisible(v: View, ops: seq<Op>)
    requires v.Valid() && forall i :: 0 <= i < |ops| ==> LayoutFree(ops[i])
    ensures RunPermitted(v, ops) <==> QueueRunPermitted(v.content, ops)
    decreases |ops|
  {
    if ops != [] {
      assert LayoutFree(ops[0]);
      if Permitted(v, ops[0]) {
        assert Apply(v, ops[0]).content == QueueApply(v.content, ops[0]);
        LayoutIsInvisible(Apply(v, ops[0]), ops[1..]);
      }
    }
  }

  /** Prepending is the exception: after a request for room it is permitted if and only if it was before
      and the request was met without compaction, by room behind the content or by growth. */
  lemma PrependAfterRequestIff(v: View, len: nat, data: bytes)
    requires v.Valid() && data != []
    ensures Permitted(Apply(v, EnsureWritable(len)), Prepend(data)) <==>
            |data| <= v.reader && (v.Writable() >= len || |v.content| + len > v.capacity)
  {
  }

  lemma PrependAfterAppendIff(v: View, appended: bytes, data: bytes)
    requires v.Valid() && data != []
    ensures Permitted(Apply(v, Append(appended)), Prepend(data)) <==>
            |data| <= v.reader && (v.Writable() >= |appended| || |v.content| + |appended| > v.capacity)
  {
  }

  /** Retrieving frees room in front, but taking everything gives all of it back to the end. */
  lemma RoomAfterRetrieve(v: View, len: nat, data: bytes)
    requires v.Valid() && len <= |v.content|
    ensures Permitted(Apply(v, Retrieve(len)), Prepend(data)) <==>
            |data| <= if len < |v.content| then v.reader + len else 0
    ensures Apply(v, Retrieve(len)).Writable() == if len < |v.content| then v.Writable() else v.capacity
    ensures Apply(v, RetrieveAll).Writable() == v.capacity
  {
  }

  /** For instance: the same content in the same capacity admits a prepend before
      a compaction and refuses it afterwards. */
  lemma CompactionClosesPrependRoom()
    ensures
      var v := View(8, 4, [1, 2]);
      && v.Valid()
      && Permitted(v, Prepend([0, 0, 0, 0]))
      && Apply(v, EnsureWritable(6)) == View(8, 0, [1, 2])
      && !Permitted(Apply(v, EnsureWritable(6)), Prepend([0]))
  {
  }

  /// How large the storage gets

  /** The storage grows exactly when content and request together exceed it, and stays below
      the content plus twice the request. */
  lemma GrowthBound(v: View, len: nat)
    requires v.Valid()
    ensures MakeRoom(v, len).capacity > v.capacity <==> |v.content| + len > v.capacity
    ensures MakeRoom(v, len).capacity >= v.capacity
    ensures MakeRoom(v, len).capacity > v.capacity ==> MakeRoom(v, len).capacity < |v.content| + 2 * len
  {
  }

  const INITIAL_SIZE := 1024

  /** One turn of the reading loop: room for 1024 bytes, a chunk arrives, the callback leaves a rest. */
  datatype Turn = Turn(chunk: bytes, used: nat)

  predicate TurnPermitted(v: View, t: Turn, rest: nat)
    requires v.Valid()
  {
    var w := MakeRoom(v, INITIAL_SIZE);
    && |t.chunk| <= w.Writable()
    && t.used <= |w.content| + |t.chunk| <= t.used + rest
  }

  function TakeTurn(v: View, t: Turn, rest: nat): (r: View)
    requires v.Valid() && TurnPermitted(v, t, rest)
    ensures r.Valid() && |r.content| <= rest
  {
    Apply(Apply(Apply(v, EnsureWritable(INITIAL_SIZE)), Receive(t.chunk)), Retrieve(t.used))
  }

  predicate TurnsPermitted(v: View, ts: seq<Turn>, rest: nat)
    requires v.Valid()
    decreases |ts|
  {
    ts == [] || (TurnPermitted(v, ts[0], rest) && TurnsPermitted(TakeTurn(v, ts[0], rest), ts[1..], rest))
  }

  function TakeTurns(v: View, ts: seq<Turn>, rest: nat): (r: View)
    requires v.Valid() && TurnsPermitted(v, ts, rest)
    ensures r.Valid()
    decreases |ts|
  {
    if ts == [] then v else TakeTurns(TakeTurn(v, ts[0], rest), ts[1..], rest)
  }

  /** In each turn there is room for at least 1024 bytes. */
  lemma TurnHasRoom(v: View, chunk: bytes)
    requires v.Valid() && |chunk| <= 1024
    ensures TurnPermitted(v, Turn(chunk, |v.content| + |chunk|), 0)
  {
  }

  /** If every callback leaves at most `rest` bytes, the input buffer stays bounded for ever. */
  lemma {:induction false} InputCapacityBound(v: View, ts: seq<Turn>, rest: nat)
    requires v.Valid() && |v.content| <= rest && v.capacity <= Max(1024, rest + 2047)
    requires TurnsPermitted(v, ts, rest)
    ensures TakeTurns(v, ts, rest).capacity <= Max(1024, rest + 2047)
    decreases |ts|
  {
    if ts != [] {
      GrowthBound(v, INITIAL_SIZE);
      InputCapacityBound(TakeTurn(v, ts[0], rest), ts[1..], rest);
    }
  }

  /// Integers in the queue

  /** `peekInt32`: copy four bytes out of the content, then `ntohl`. */
  function PeekInt32(q: bytes): int32
    requires |q| >= 4
  {
    SwapBytes(Signed(FromMemory(q[..4])))
  }

  function Int32s(xs: seq<int32>): bytes {
    if xs == [] then [] else NetworkOrder(xs[0]) + Int32s(xs[1..])
  }

  /** `n` calls of `readInt32`, while four bytes are left: the values and the bytes behind them. */
  function ReadInt32s(q: bytes, n: nat): (seq<int32>, bytes) {
    if n == 0 || |q| < 4 then ([], q)
    else
      var (xs, rest) := ReadInt32s(q[4..], n - 1);
      ([PeekInt32(q)] + xs, rest)
  }

  lemma PeekInt32AtFront(x: int32, tail: bytes)
    ensures |NetworkOrder(x)| == 4
    ensures PeekInt32(NetworkOrder(x) + tail) == x
  {
    var q := NetworkOrder(x) + tail;
    assert q[..4] == NetworkOrder(x);
    SwapBytesInvolution(x);
  }

  lemma ReadInt32sStep(x: int32, tail: bytes, n: nat)
    ensures
      var (xs, rest) := ReadInt32s(tail, n);
      ReadInt32s(NetworkOrder(x) + tail, n + 1) == ([x] + xs, rest)
  {
    PeekInt32AtFront(x, tail);
    assert (NetworkOrder(x) + tail)[4..] == tail;
  }

  /** Every sequence of 32-bit integers reads back in order and leaves what follows it alone. */
  lemma {:induction false} Int32sReadBack(xs: seq<int32>, tail: bytes)
    ensures ReadInt32s(Int32s(xs) + tail, |xs|) == (xs, tail)
  {
    if xs == [] {
      assert Int32s(xs) + tail == tail;
    } else {
      var first, more := NetworkOrder(xs[0]), Int32s(xs[1..]);
      assert Int32s(xs) + tail == first + (more + tail);
      assert xs == [xs[0]] + xs[1..];
      ReadInt32sStep(xs[0], more + tail, |xs| - 1);
      Int32sReadBack(xs[1..], tail);
    }
  }

  /// The 16-bit and 8-bit accessors call the 32-bit conversions and then narrow the result.

  function StoredInt16(x: int16): int16 { Narrow16(SwapBytes(x)) }

  function StoredInt8(x: int8): int8 { Narrow8(SwapBytes(x)) }

  function LoadedInt16(stored: int16): int16 { Narrow16(SwapBytes(stored)) }

  function LoadedInt8(stored: int8): int8 { Narrow8(SwapBytes(stored)) }

  /** Only the sign survives: a 16-bit integer reads back as itself iff it is 0 or -1. */
  lemma Int16ReadBack(x: int16)
    ensures LoadedInt16(StoredInt16(x)) == if x < 0 then -1 else 0
    ensures LoadedInt16(StoredInt16(x)) == x <==> x == 0 || x == -1
  {
    var u: int := Unsigned(x);
    assert u / 0x1_0000 % 0x100 == if x < 0 then 0xff else 0;
    assert u / 0x100_0000 == if x < 0 then 0xff else 0;
    Narrow16OfSwap(x, if x < 0 then 0xff else 0);
    Narrow16OfSwap(StoredInt16(x), if x < 0 then 0xff else 0);
  }

  lemma Narrow16OfSwap(x: int32, high: byte)
    requires high == 0 || high == 0xff
    requires Memory(Unsigned(x))[2] == high && Memory(Unsigned(x))[3] == high
    ensures Narrow16(SwapBytes(x)) == if high == 0 then 0 else -1
  {
    var m := Memory(Unsigned(x));
    var a: int, b: int, h: int := m[0], m[1], high;
    assert FromMemory(NetworkOrder(x)) == h + 0x100 * h + 0x1_0000 * b + 0x100_0000 * a;
    assert FromMemory(NetworkOrder(x)) % 0x1_0000 == h + 0x100 * h;
  }

  lemma Int8ReadBack(x: int8)
    ensures LoadedInt8(StoredInt8(x)) == if x < 0 then -1 else 0
    ensures LoadedInt8(StoredInt8(x)) == x <==> x == 0 || x == -1
  {
    Narrow8OfSwap(x, if x < 0 then 0xff else 0);
    Narrow8OfSwap(StoredInt8(x), if x < 0 then 0xff else 0);
  }

  lemma Narrow8OfSwap(x: int32, high: byte)
    requires high == 0 || high == 0xff
    requires Memory(Unsigned(x))[3] == high
    ensures Narrow8(SwapBytes(x)) == if high == 0 then 0 else -1
  {
    var m := Memory(Unsigned(x));
    var a: int, b: int, c: int, h: int := m[0], m[1], m[2], high;
    assert FromMemory(NetworkOrder(x)) == h + 0x100 * (c + 0x100 * b + 0x1_0000 * a);
    assert FromMemory(NetworkOrder(x)) % 0x100 == h;
  }
}
