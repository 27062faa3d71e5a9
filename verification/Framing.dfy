/** Packets on a byte stream: a fixed header that carries the length of the body, then the body.

The header is a struct of three `int32` copied from memory. The receiving side tests with
`hasPacket` whether a whole packet has arrived and hands out whole packets only.
 */
module Framing {
  import opened Bytes
  import opened ByteQueue
  import opened DataBuffers

  const HEADER_SIZE := 12

  datatype Header = Header(kind: int32, size: int32, extraID: int32)

  datatype Packet = Packet(header: Header, body: bytes)

  function HeaderBytes(h: Header): (r: bytes)
    ensures |r| == HEADER_SIZE
  {
    Memory(Unsigned(h.kind)) + Memory(Unsigned(h.size)) + Memory(Unsigned(h.extraID))
  }

  function ReadHeader(s: bytes): Header
    requires |s| >= HEADER_SIZE
  {
    Header(Signed(FromMemory(s[0..4])), Signed(FromMemory(s[4..8])), Signed(FromMemory(s[8..12])))
  }

  /** `header->size + kPacketHeaderSize` in 64-bit unsigned arithmetic. */
  function PacketLength(size: int32): nat {
    if size + HEADER_SIZE >= 0 then size + HEADER_SIZE else 0x1_0000_0000_0000_0000 + size + HEADER_SIZE
  }

  predicate HasPacket(s: bytes) {
    |s| >= HEADER_SIZE && |s| >= PacketLength(ReadHeader(s).size)
  }

  /** The packet at the front of the stream, as the handler sees it. */
  function FrontPacket(s: bytes): Packet
    requires HasPacket(s)
  {
    var h := ReadHeader(s);
    Packet(h, if h.size < 0 then [] else s[HEADER_SIZE..HEADER_SIZE + h.size])
  }

  /** What the dispatch loop did with a stream. A packet of length 0 would be handled for ever. */
  datatype Dispatched = Dispatched(packets: seq<Packet>, rest: bytes, hangs: bool)

  function Dispatch(s: bytes): Dispatched
    decreases |s|
  {
    if !HasPacket(s) then Dispatched([], s, false)
    else
      var n := PacketLength(ReadHeader(s).size);
      if n == 0 then Dispatched([], s, true)
      else
        After([FrontPacket(s)], Dispatch(s[n..]))
  }

  /** The packets of a longer dispatch: some already handled, then those of the remaining stream. */
  function After(packets: seq<Packet>, r: Dispatched): Dispatched {
    Dispatched(packets + r.packets, r.rest, r.hangs)
  }

  lemma AfterAfter(ps: seq<Packet>, qs: seq<Packet>, r: Dispatched)
    ensures After(ps, After(qs, r)) == After(ps + qs, r)
    ensures After([], r) == r
  {
    assert ps + (qs + r.packets) == ps + qs + r.packets;
    assert [] + r.packets == r.packets;
  }

  /** One turn of the loop. */
  lemma DispatchStep(s: bytes)
    requires HasPacket(s) && PacketLength(ReadHeader(s).size) > 0
    ensures Dispatch(s) == After([FrontPacket(s)], Dispatch(s[PacketLength(ReadHeader(s).size)..]))
  {
  }

  /** `defaultMessageCallback`: the loop over the input buffer. Each packet goes to a handler. */
  method DispatchLoop(data: DataBuffer) returns (packets: seq<Packet>, hangs: bool)
    requires data.Valid()
    modifies data
    ensures data.Valid() && data.buffer == old(data.buffer) && data.isOperating == old(data.isOperating)
    ensures Dispatched(packets, data.Contents(), hangs) == Dispatch(old(data.Contents()))
  {
    hide ReadHeader, FrontPacket;
    packets, hangs := [], false;
    var content := data.buffer[data.readerIndex..data.writerIndex];
    ghost var all := Dispatch(content);
    AfterAfter([], [], all);
    while HasPacket(content)
      invariant data.Valid() && data.buffer == old(data.buffer) && data.isOperating == old(data.isOperating)
      invariant content == data.Contents() && !hangs
      invariant all == After(packets, Dispatch(content))
      decreases |content|
    {
      var length := PacketLength(ReadHeader(content).size);
      if length == 0 {
        hangs := true;
        break;
      }
      DispatchStep(content);
      AfterAfter(packets, [FrontPacket(content)], Dispatch(content[length..]));
      packets := packets + [FrontPacket(content)];
      data.Retrieve(length);
      content := content[length..];
    }
    AfterAfter(packets, [], Dispatched([], content, hangs));
  }

  predicate IsSuffix(rest: bytes, s: bytes) {
    |rest| <= |s| && rest == s[|s| - |rest|..]
  }

  lemma SuffixOfDrop(rest: bytes, s: bytes, n: nat)
    requires n <= |s| && IsSuffix(rest, s[n..])
    ensures IsSuffix(rest, s)
  {
  }

  /** The loop leaves the end of the stream. */
  lemma {:induction false} RestIsSuffix(s: bytes)
    ensures IsSuffix(Dispatch(s).rest, s)
    decreases |s|
  {
    hide IsSuffix, FrontPacket, ReadHeader;
    assert IsSuffix(s, s) by { WholeIsSuffix(s); }
    if HasPacket(s) {
      var n := PacketLength(ReadHeader(s).size);
      if n > 0 {
        DispatchStep(s);
        RestIsSuffix(s[n..]);
        SuffixOfDrop(Dispatch(s[n..]).rest, s, n);
      }
    }
  }

  lemma DispatchOfNothing()
    ensures Dispatch([]) == Dispatched([], [], false)
  {
  }

  /** What the loop has left has no whole packet in front, unless the loop spins on it. */
  lemma {:induction false} RestIsDispatched(s: bytes)
    ensures Dispatch(Dispatch(s).rest) == Dispatched([], Dispatch(s).rest, Dispatch(s).hangs)
    decreases |s|
  {
    hide FrontPacket, ReadHeader;
    if HasPacket(s) {
      var n := PacketLength(ReadHeader(s).size);
      if n > 0 {
        DispatchStep(s);
        RestIsDispatched(s[n..]);
      }
    }
  }

  lemma WholeIsSuffix(s: bytes)
    ensures IsSuffix(s, s)
  {
  }

  /// Whole packets

  predicate WellFormed(p: Packet) {
    p.header.size == |p.body|
  }

  /** The header size is the length of the body, or negative. */
  predicate Sized(p: Packet) {
    p.header.size < 0 || WellFormed(p)
  }

  /** A packet that the loop hands out is well formed if and only if its size is not negative. */
  lemma {:induction false} DispatchedAreSized(s: bytes, i: nat)
    requires i < |Dispatch(s).packets|
    ensures
      var p := Dispatch(s).packets[i];
      Sized(p) && (WellFormed(p) <==> p.header.size >= 0)
    decreases |s|
  {
    if HasPacket(s) {
      var n := PacketLength(ReadHeader(s).size);
      if n > 0 {
        DispatchStep(s);
        if i > 0 {
          DispatchedAreSized(s[n..], i - 1);
        }
      }
    }
  }

  predicate AllWellFormed(ps: seq<Packet>) {
    forall i :: 0 <= i < |ps| ==> WellFormed(ps[i])
  }

  function Encode(p: Packet): bytes {
    HeaderBytes(p.header) + p.body
  }

  function EncodeAll(ps: seq<Packet>): bytes {
    if ps == [] then [] else EncodeAll(ps[..|ps| - 1]) + Encode(ps[|ps| - 1])
  }

  lemma HeaderRoundTrip(h: Header, tail: bytes)
    ensures ReadHeader(HeaderBytes(h) + tail) == h
  {
    var s := HeaderBytes(h) + tail;
    assert s[0..4] == Memory(Unsigned(h.kind));
    assert s[4..8] == Memory(Unsigned(h.size));
    assert s[8..12] == Memory(Unsigned(h.extraID));
    MemoryRoundTrip(Unsigned(h.kind));
    MemoryRoundTrip(Unsigned(h.size));
    MemoryRoundTrip(Unsigned(h.extraID));
  }

  /** Where the fields lie: the type in bytes 0 to 3, the size in 4 to 7, the extra id in 8 to 11, each with
      its least significant byte first. */
  lemma HeaderLayout(h: Header)
    ensures
      var r := HeaderBytes(h);
      && Signed(FromMemory([r[0], r[1], r[2], r[3]])) == h.kind
      && Signed(FromMemory([r[4], r[5], r[6], r[7]])) == h.size
      && Signed(FromMemory([r[8], r[9], r[10], r[11]])) == h.extraID
      && (0 <= h.size < 0x100 ==> r[4] == h.size && r[5] == r[6] == r[7] == 0)
  {
    MemoryRoundTrip(Unsigned(h.kind));
    MemoryRoundTrip(Unsigned(h.size));
    MemoryRoundTrip(Unsigned(h.extraID));
    var r := HeaderBytes(h);
    assert [r[0], r[1], r[2], r[3]] == Memory(Unsigned(h.kind));
    assert [r[4], r[5], r[6], r[7]] == Memory(Unsigned(h.size));
    assert [r[8], r[9], r[10], r[11]] == Memory(Unsigned(h.extraID));
  }

  lemma FrontOfEncoding(p: Packet, tail: bytes)
    requires WellFormed(p)
    ensures
      var s := Encode(p) + tail;
      && HasPacket(s) && FrontPacket(s) == p
      && PacketLength(ReadHeader(s).size) == |Encode(p)| > 0 && s[|Encode(p)|..] == tail
  {
    var s := Encode(p) + tail;
    assert s == HeaderBytes(p.header) + (p.body + tail);
    HeaderRoundTrip(p.header, p.body + tail);
    assert s[HEADER_SIZE..HEADER_SIZE + |p.body|] == p.body;
  }

  /** Whole packets come out as they went in, and what follows them is dispatched as if alone. */
  lemma {:induction false} DispatchEncoded(ps: seq<Packet>, tail: bytes)
    requires AllWellFormed(ps)
    ensures Dispatch(EncodeAll(ps) + tail) == After(ps, Dispatch(tail))
    decreases |ps|
  {
    hide Encode, Dispatch, After, HasPacket, FrontPacket, ReadHeader, PacketLength, WellFormed;
    if ps == [] {
      assert EncodeAll(ps) + tail == tail;
      AfterAfter([], [], Dispatch(tail));
    } else {
      var front, last := ps[..|ps| - 1], ps[|ps| - 1];
      assert EncodeAll(ps) + tail == EncodeAll(front) + (Encode(last) + tail);
      DispatchEncoded(front, Encode(last) + tail);
      FrontOfEncoding(last, tail);
      DispatchStep(Encode(last) + tail);
      AfterAfter(front, [last], Dispatch(tail));
      assert front + [last] == ps;
    }
  }

  /** The length fields determine the packets: two packet sequences with the same bytes are equal. */
  lemma EncodingIsUnique(ps: seq<Packet>, qs: seq<Packet>)
    requires AllWellFormed(ps) && AllWellFormed(qs) && EncodeAll(ps) == EncodeAll(qs)
    ensures ps == qs
  {
    DispatchOfWhole(ps);
    DispatchOfWhole(qs);
  }

  lemma EncodeAllSnoc(ps: seq<Packet>, p: Packet)
    ensures EncodeAll(ps + [p]) == EncodeAll(ps) + Encode(p)
  {
    hide Encode;
    assert (ps + [p])[..|ps|] == ps;
  }

  lemma EncodeNothing()
    ensures EncodeAll([]) == []
  {
  }

  lemma EncodeOne(p: Packet)
    ensures EncodeAll([p]) == Encode(p)
  {
    hide Encode;
    assert [] + Encode(p) == Encode(p);
  }

  lemma {:induction false} EncodeAllConcat(ps: seq<Packet>, qs: seq<Packet>)
    ensures EncodeAll(ps + qs) == EncodeAll(ps) + EncodeAll(qs)
    decreases |qs|
  {
    hide Encode, EncodeAll;
    if qs == [] {
      EncodeNothing();
      assert ps + qs == ps;
    } else {
      var front, last := qs[..|qs| - 1], qs[|qs| - 1];
      EncodeAllConcat(ps, front);
      EncodeAllSnoc(ps + front, last);
      EncodeAllSnoc(front, last);
      assert qs == front + [last] && ps + qs == ps + front + [last];
      assert EncodeAll(ps) + EncodeAll(front) + Encode(last) == EncodeAll(ps) + (EncodeAll(front) + Encode(last));
    }
  }

  /// Any chunking

  lemma HasPacketMonotone(s: bytes, more: bytes)
    requires HasPacket(s)
    ensures HasPacket(s + more) && ReadHeader(s + more) == ReadHeader(s) && FrontPacket(s + more) == FrontPacket(s)
  {
    var t := s + more;
    assert t[0..4] == s[0..4] && t[4..8] == s[4..8] && t[8..12] == s[8..12];
    var h := ReadHeader(s);
    if h.size >= 0 {
      assert t[HEADER_SIZE..HEADER_SIZE + h.size] == s[HEADER_SIZE..HEADER_SIZE + h.size];
    }
  }

  /** Dispatching what has arrived, and the rest together with what comes next, is dispatching all
      of it at once: for every byte stream, well formed or not. */
  lemma {:induction false} DispatchInChunks(s: bytes, more: bytes)
    requires !Dispatch(s).hangs
    ensures Dispatch(s + more) == After(Dispatch(s).packets, Dispatch(Dispatch(s).rest + more))
    decreases |s|
  {
    hide ReadHeader, FrontPacket, PacketLength;
    if HasPacket(s) {
      var n := PacketLength(ReadHeader(s).size);
      HasPacketMonotone(s, more);
      DispatchStep(s);
      DispatchStep(s + more);
      assert (s + more)[n..] == s[n..] + more;
      DispatchInChunks(s[n..], more);
      AfterAfter([FrontPacket(s)], Dispatch(s[n..]).packets, Dispatch(Dispatch(s[n..]).rest + more));
    } else {
      AfterAfter([], [], Dispatch(s + more));
    }
  }

  lemma {:induction false} ShortStreamHasNoPacket(p: Packet, s: bytes)
    requires WellFormed(p) && |s| < |Encode(p)| && s == Encode(p)[..|s|]
    ensures Dispatch(s) == Dispatched([], s, false)
  {
    if |s| >= HEADER_SIZE {
      var tail := p.body[..|s| - HEADER_SIZE];
      assert s == HeaderBytes(p.header) + tail;
      HeaderRoundTrip(p.header, tail);
    }
  }

  lemma CutLast(front: bytes, last: bytes, s: bytes)
    requires s <= front + last && |front| <= |s|
    ensures s == front + last[..|s| - |front|]
  {
  }

  /** A prefix of a packet stream is some whole packets and a proper part of the next one. */
  lemma {:induction false} CutStream(ps: seq<Packet>, s: bytes) returns (k: nat, part: bytes)
    requires s <= EncodeAll(ps)
    ensures k <= |ps| && s == EncodeAll(ps[..k]) + part
    ensures if k == |ps| then part == [] else |part| < |Encode(ps[k])| && part == Encode(ps[k])[..|part|]
    decreases |ps|
  {
    hide Encode;
    if |s| == |EncodeAll(ps)| {
      k, part := |ps|, [];
      assert ps[..k] == ps && s + part == s;
    } else {
      var front, last := ps[..|ps| - 1], ps[|ps| - 1];
      if |s| < |EncodeAll(front)| {
        k, part := CutStream(front, s);
        assert front[..k] == ps[..k];
      } else {
        CutLast(EncodeAll(front), Encode(last), s);
        k, part := |ps| - 1, Encode(last)[..|s| - |EncodeAll(front)|];
      }
    }
  }

  /** However far a stream of whole packets has got, what was handed out is the first few of them,
      and what is left over is a proper part of the next one. */
  lemma DispatchOfPrefix(ps: seq<Packet>, s: bytes)
    requires AllWellFormed(ps) && s <= EncodeAll(ps)
    ensures
      var r := Dispatch(s);
      && !r.hangs && r.packets <= ps
      && s == EncodeAll(r.packets) + r.rest
      && (|r.packets| < |ps| ==> |r.rest| < |Encode(ps[|r.packets|])|)
      && (|r.packets| == |ps| ==> r.packets == ps && r.rest == [])
  {
    hide Encode;
    var k, part := CutStream(ps, s);
    DispatchEncoded(ps[..k], part);
    if k < |ps| {
      ShortStreamHasNoPacket(ps[k], part);
    }
    assert ps[..k] + [] == ps[..k];
  }

  /** When all of it has arrived, all of it has been handed out. */
  lemma DispatchOfWhole(ps: seq<Packet>)
    requires AllWellFormed(ps)
    ensures Dispatch(EncodeAll(ps)) == Dispatched(ps, [], false)
  {
    DispatchEncoded(ps, []);
    assert EncodeAll(ps) + [] == EncodeAll(ps) && ps + [] == ps;
  }

  /// Headers no sender of this code base writes

  /** A position of the stream that the loop reaches packet by packet. */
  ghost predicate Boundary(s: bytes, k: nat)
    decreases |s|
  {
    k == 0 || (
      && HasPacket(s)
      && 0 < PacketLength(ReadHeader(s).size) <= k
      && Boundary(s[PacketLength(ReadHeader(s).size)..], k - PacketLength(ReadHeader(s).size)))
  }

  /** A whole header with a size of -12, at a position that the loop reaches. */
  ghost predicate SpinsAt(s: bytes, k: nat) {
    Boundary(s, k) && k + HEADER_SIZE <= |s| && ReadHeader(s[k..]).size == -HEADER_SIZE
  }

  lemma SpinsLater(s: bytes, n: nat, k: nat)
    requires HasPacket(s) && PacketLength(ReadHeader(s).size) == n > 0
    ensures SpinsAt(s[n..], k) <==> SpinsAt(s, n + k)
  {
    hide ReadHeader;
    if n + k <= |s| {
      assert s[n..][k..] == s[n + k..];
    }
  }

  /** The loop spins if and only if a packet boundary of the stream is followed by a header of size -12. */
  lemma {:induction false} HangsIffLengthZero(s: bytes)
    ensures Dispatch(s).hangs <==> exists k: nat :: SpinsAt(s, k)
    decreases |s|
  {
    hide ReadHeader, SpinsAt, FrontPacket;
    if !HasPacket(s) {
      NoPacketNoSpin(s);
    } else {
      var n := PacketLength(ReadHeader(s).size);
      if n == 0 {
        SpinsAtOnce(s);
      } else {
        HangsIffLengthZero(s[n..]);
        if k: nat :| SpinsAt(s[n..], k) {
          SpinsLater(s, n, k);
        }
        if k: nat :| SpinsAt(s, k) {
          SpinsNotYet(s, n, k);
          SpinsLater(s, n, k - n);
        }
      }
    }
  }

  lemma NoPacketNoSpin(s: bytes)
    requires !HasPacket(s)
    ensures forall k: nat :: !SpinsAt(s, k)
  {
    assert s[0..] == s;
  }

  lemma SpinsAtOnce(s: bytes)
    requires HasPacket(s) && PacketLength(ReadHeader(s).size) == 0
    ensures SpinsAt(s, 0)
  {
    assert s[0..] == s;
  }

  lemma SpinsNotYet(s: bytes, n: nat, k: nat)
    requires HasPacket(s) && PacketLength(ReadHeader(s).size) == n > 0 && SpinsAt(s, k)
    ensures k >= n
  {
    assert s[0..] == s;
  }

  /** A size below -12 blocks the stream for good, and one between -11 and -1 passes as a packet
      that ends inside its own header. */
  lemma NegativeSize(h: Header, tail: bytes)
    requires h.size < 0 && |tail| < 0x8000_0000
    ensures
      var s := HeaderBytes(h) + tail;
      if h.size < -HEADER_SIZE then Dispatch(s) == Dispatched([], s, false)
      else HasPacket(s) && PacketLength(h.size) == HEADER_SIZE + h.size < HEADER_SIZE
  {
    HeaderRoundTrip(h, tail);
  }
}
