/** The modular ring buffer of src/ringbuffer/ringbuffer.c, a bounded FIFO of bytes. */
module RingBuffers {

  import opened Bytes
  import opened Options

  /** (i + 1) % size */
  function Next(i: nat, size: nat): (r: nat)
    requires i < size
    ensures r == if i + 1 == size then 0 else i + 1
  {
    (i + 1) % size
  }

  /** The number of slots from index `r` up to index `w`, going round at the end. */
  function Distance(r: nat, w: nat, size: nat): nat
    requires r < size && w < size
  {
    if r <= w then w - r else size - r + w
  }

  /** The slot `i` places behind index `r`. */
  function Slot(r: nat, i: nat, size: nat): (k: nat)
    requires r < size && i < size
    ensures k < size
  {
    if r + i < size then r + i else r + i - size
  }

  class RingBuffer {
    var readIndex: nat
    var writeIndex: nat
    const size: nat
    const buf: array<Byte>

    /** The bytes in the buffer, oldest first. */
    ghost var contents: seq<Byte>

    ghost predicate Valid()
      reads this, buf
    {
      && size >= 1 && buf.Length == size && readIndex < size && writeIndex < size
      && |contents| == Distance(readIndex, writeIndex, size)
      && forall i: nat :: i < |contents| ==> contents[i] == buf[Slot(readIndex, i, size)]
    }

    /** The slot before the read position: the one the latest Get returned. */
    ghost function LastRead(): (i: nat)
      requires readIndex < size
      reads this
      ensures i < size && Next(i, size) == readIndex
    {
      if readIndex == 0 then size - 1 else readIndex - 1
    }

    constructor (buf: array<Byte>)
      requires buf.Length >= 1
      ensures Valid() && this.buf == buf && size == buf.Length && contents == []
    {
      readIndex := 0;
      writeIndex := 0;
      size := buf.Length;
      this.buf := buf;
      contents := [];
    }

    /** Returns the slot of the oldest byte, not the byte: the caller reads it there. */
    method Get() returns (slot: Option<nat>)
      requires Valid()
      modifies this`readIndex, this`contents
      ensures Valid()
      ensures old(contents) == [] ==> slot == None && contents == []
      ensures old(contents) != [] ==>
        && slot == Some(LastRead()) && buf[slot.value] == old(contents)[0]
        && contents == old(contents)[1..]
    {
      var empty := Empty();
      if empty {
        return None;
      }
      slot := Some(readIndex);
      readIndex := Next(readIndex, size);
      contents := contents[1..];
    }

    /** Refused exactly when `size - 1` bytes are in the buffer. The slot returned by the
        latest Get is never overwritten. */
    method Put(data: Byte) returns (ok: bool)
      requires Valid()
      modifies this`writeIndex, this`contents, buf
      ensures Valid()
      ensures ok <==> |old(contents)| < size - 1
      ensures contents == if ok then old(contents) + [data] else old(contents)
      ensures buf[LastRead()] == old(buf[LastRead()])
    {
      var full := Full();
      if full {
        return false;
      }
      Append(data);
      return true;
    }

    /** One write and one step of the write position. */
    method Append(data: Byte)
      requires Valid() && |contents| < size - 1
      modifies this`writeIndex, this`contents, buf
      ensures Valid() && contents == old(contents) + [data]
      ensures buf[LastRead()] == old(buf[LastRead()])
    {
      buf[writeIndex] := data;
      writeIndex := Next(writeIndex, size);
      contents := contents + [data];
    }

    /** All bytes or none. */
    method PutN(data: seq<Byte>) returns (ok: bool)
      requires Valid()
      modifies this`writeIndex, this`contents, buf
      ensures Valid()
      ensures ok <==> |old(contents)| + |data| <= size - 1
      ensures contents == if ok then old(contents) + data else old(contents)
      ensures buf[LastRead()] == old(buf[LastRead()])
    {
      var n := Size();
      if size - 1 - n < |data| {
        return false;
      }
      ghost var was, last := contents, LastRead();
      for i := 0 to |data|
        invariant Valid() && contents == was + data[..i]
        invariant LastRead() == last && buf[last] == old(buf[last])
      {
        Append(data[i]);
        assert data[..i + 1] == data[..i] + [data[i]];
      }
      assert data[..|data|] == data;
      return true;
    }

    method Empty() returns (b: bool)
      requires Valid()
      ensures b <==> contents == []
    {
      return readIndex == writeIndex;
    }

    method Full() returns (b: bool)
      requires Valid()
      ensures b <==> |contents| == size - 1
    {
      return Next(writeIndex, size) == readIndex;
    }

    method Size() returns (n: nat)
      requires Valid()
      ensures n == |contents|
    {
      if writeIndex < readIndex {
        return writeIndex + size - readIndex;
      }
      return writeIndex - readIndex;
    }
  }
}
