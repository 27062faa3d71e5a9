/** The growable byte buffer of DataBuffer.hpp, on a real array. */
module DataBuffers {
  import opened Bytes
  import opened ByteQueue

  /** Copies `count` bytes forward, first to last, as `std::copy` does; the target may overlap the
      source when it starts in front of it. */
  method CopyWithin(a: array<byte>, from: nat, to: nat, count: nat)
    requires to <= from && from + count <= a.Length
    modifies a
    ensures a[to..to + count] == old(a[from..from + count])
    ensures a[..to] == old(a[..to])
  {
    ghost var was, shift := a[..], from - to;
    for i := 0 to count
      invariant forall k :: to <= k < to + i ==> a[k] == was[k + shift]
      invariant forall k :: to + i <= k < a.Length ==> a[k] == was[k]
      invariant forall k :: 0 <= k < to ==> a[k] == was[k]
    {
      a[to + i] := a[from + i];
    }
    assert a[to..to + count] == was[from..from + count];
  }

  /** Copies a byte string into the array at the given position. */
  method CopyInto(a: array<byte>, at: nat, data: bytes)
    requires at + |data| <= a.Length
    modifies a
    ensures a[at..at + |data|] == data
    ensures a[..at] == old(a[..at])
    ensures a[at + |data|..] == old(a[at + |data|..])
  {
    for i := 0 to |data|
      invariant forall k :: 0 <= k < i ==> a[at + k] == data[k]
      invariant forall k :: 0 <= k < at ==> a[k] == old(a[k])
      invariant forall k :: at + i <= k < a.Length ==> a[k] == old(a[k])
    {
      a[at + i] := data[i];
    }
  }

  class DataBuffer {
    var buffer: array<byte>
    var readerIndex: nat
    var writerIndex: nat
    var isOperating: bool

    ghost predicate Valid()
      reads this
    {
      readerIndex <= writerIndex <= buffer.Length
    }

    ghost function Contents(): bytes
      requires Valid()
      reads this, buffer
    {
      buffer[readerIndex..writerIndex]
    }

    ghost function AsView(): (v: View)
      requires Valid()
      reads this, buffer
      ensures v.Valid()
    {
      View(buffer.Length, readerIndex, Contents())
    }

    constructor (initialSize: nat := INITIAL_SIZE)
      ensures Valid() && fresh(buffer) && !isOperating
      ensures AsView() == View(initialSize, 0, [])
    {
      buffer := new byte[initialSize](_ => 0);
      readerIndex, writerIndex := 0, 0;
      isOperating := false;
    }

    function ReadableBytes(): (n: nat)
      requires Valid()
      reads this, buffer
      ensures n == |Contents()|
    {
      writerIndex - readerIndex
    }

    function WritableBytes(): (n: nat)
      requires Valid()
      reads this, buffer
      ensures n == AsView().Writable()
    {
      buffer.Length - writerIndex
    }

    /** `resize` moves the bytes to a larger block; compaction reuses the block. */
    method MakeSpace(len: nat)
      requires Valid() && WritableBytes() < len
      modifies this`buffer, this`readerIndex, this`writerIndex, buffer
      ensures Valid() && AsView() == MakeRoom(old(AsView()), len)
      ensures buffer == old(buffer) || fresh(buffer)
    {
      if WritableBytes() + readerIndex < len {
        var shorter := buffer;
        var grown := new byte[writerIndex + len](
          i requires 0 <= i reads shorter => if i < shorter.Length then shorter[i] else 0);
        assert grown[readerIndex..writerIndex] == shorter[readerIndex..writerIndex];
        buffer := grown;
      } else {
        assert 0 < readerIndex;
        var readable := ReadableBytes();
        CopyWithin(buffer, readerIndex, 0, readable);
        readerIndex := 0;
        writerIndex := readable;
      }
    }

    method EnsureWritableBytes(len: nat)
      requires Valid()
      modifies this`buffer, this`readerIndex, this`writerIndex, buffer
      ensures Valid() && AsView() == Apply(old(AsView()), EnsureWritable(len))
      ensures WritableBytes() >= len
      ensures buffer == old(buffer) || fresh(buffer)
    {
      if WritableBytes() < len {
        MakeSpace(len);
      }
    }

    /** Bytes arrive at the write position from outside, and `hasWritten` claims them. */
    method HasReceived(data: bytes)
      requires Valid() && |data| <= WritableBytes()
      modifies this`writerIndex, buffer
      ensures Valid() && AsView() == Apply(old(AsView()), Receive(data))
    {
      CopyInto(buffer, writerIndex, data);
      assert buffer[readerIndex..writerIndex] == buffer[..writerIndex][readerIndex..];
      assert buffer[readerIndex..writerIndex + |data|]
          == buffer[readerIndex..writerIndex] + buffer[writerIndex..writerIndex + |data|];
      writerIndex := writerIndex + |data|;
    }

    method Append(data: bytes)
      requires Valid()
      modifies this`buffer, this`readerIndex, this`writerIndex, buffer
      ensures Valid() && AsView() == Apply(old(AsView()), Op.Append(data))
      ensures buffer == old(buffer) || fresh(buffer)
    {
      EnsureWritableBytes(|data|);
      HasReceived(data);
    }

    method RetrieveAll()
      requires Valid()
      modifies this`readerIndex, this`writerIndex
      ensures Valid() && AsView() == Apply(old(AsView()), Op.RetrieveAll)
    {
      readerIndex := 0;
      writerIndex := 0;
    }

    method Retrieve(len: nat)
      requires Valid() && len <= ReadableBytes()
      modifies this`readerIndex, this`writerIndex
      ensures Valid() && AsView() == Apply(old(AsView()), Op.Retrieve(len))
    {
      if len < ReadableBytes() {
        readerIndex := readerIndex + len;
      } else {
        RetrieveAll();
      }
    }

    method Unwrite(len: nat)
      requires Valid() && len <= ReadableBytes()
      modifies this`writerIndex
      ensures Valid() && AsView() == Apply(old(AsView()), Op.Unwrite(len))
    {
      writerIndex := writerIndex - len;
    }

    method Prepend(data: bytes)
      requires Valid() && |data| <= readerIndex
      modifies this`readerIndex, buffer
      ensures Valid() && AsView() == Apply(old(AsView()), Op.Prepend(data))
    {
      var at := readerIndex - |data|;
      CopyInto(buffer, at, data);
      assert buffer[at..writerIndex] == buffer[at..readerIndex] + buffer[readerIndex..][..writerIndex - readerIndex];
      readerIndex := at;
    }

    method AppendInt32(x: int32)
      requires Valid()
      modifies this`buffer, this`readerIndex, this`writerIndex, buffer
      ensures Valid() && AsView() == Apply(old(AsView()), Op.Append(NetworkOrder(x)))
      ensures buffer == old(buffer) || fresh(buffer)
    {
      var val := SwapBytes(x);
      SwapBytesMemory(x);
      Append(Memory(Unsigned(val)));
    }

    method PrependInt32(x: int32)
      requires Valid() && 4 <= readerIndex
      modifies this`readerIndex, buffer
      ensures Valid() && AsView() == Apply(old(AsView()), Op.Prepend(NetworkOrder(x)))
    {
      var val := SwapBytes(x);
      SwapBytesMemory(x);
      Prepend(Memory(Unsigned(val)));
    }

    /** Reads what was written: a content that starts with an integer in network order yields it. */
    method ReadInt32() returns (x: int32)
      requires Valid() && ReadableBytes() >= 4
      modifies this`readerIndex, this`writerIndex
      ensures Valid() && AsView() == Apply(old(AsView()), Op.Retrieve(4))
      ensures NetworkOrder(x) == old(Contents())[..4]
    {
      var val := Signed(FromMemory(buffer[readerIndex..readerIndex + 4]));
      x := SwapBytes(val);
      assert Contents()[..4] == buffer[readerIndex..readerIndex + 4];
      MemoryOnto(buffer[readerIndex..readerIndex + 4]);
      SwapBytesMemory(val);
      Retrieve(4);
    }

    method Operate()
      modifies this`isOperating
      ensures isOperating
    {
      isOperating := true;
    }

    method Unoperate()
      modifies this`isOperating
      ensures !isOperating
    {
      isOperating := false;
    }
  }
}
