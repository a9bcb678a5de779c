/** One pooled buffer: an array of fixed capacity holding `length` bytes of data from index `head`. */
module IoBuffer {
  import opened Bytes

  class IoBuf {
    const capacity: nat
    const data: array<byte>
    var next: IoBuf?      // links the free list of the pool
    var length: nat
    var head: nat
    ghost var rank: nat   // how many buffers follow this one in its free list

    ghost predicate Valid()
      reads this`head, this`length
    {
      data.Length == capacity && head + length <= capacity
    }

    ghost function Contents(): (s: seq<byte>)
      requires Valid()
      reads this`head, this`length, data
      ensures |s| == length
    {
      data[head..head + length]
    }

    constructor (cap: nat)
      ensures Valid() && capacity == cap && head == length == 0 && next == null
      ensures fresh(data)
    {
      capacity := cap;
      data := new byte[cap];
      next := null;
      length, head := 0, 0;
    }

    method Clear()
      modifies this`head, this`length
      ensures head == length == 0
    {
      head := 0;
      length := 0;
    }

    /** `memmove` towards the front of the array. The regions may overlap; copying upwards is then
        safe, because every byte is read before its place is written. */
    method MoveDown(from: nat, count: nat)
      requires from + count <= data.Length
      modifies data
      ensures data[..count] == old(data[from..from + count])
      ensures data[count..] == old(data[count..])
    {
      var i := 0;
      while i < count
        invariant 0 <= i <= count
        invariant forall k | 0 <= k < i :: data[k] == old(data[from + k])
        invariant forall k | i <= k < data.Length :: data[k] == old(data[k])
      {
        data[i] := data[from + i];
        i := i + 1;
      }
    }

    /** Moves the unprocessed bytes to the start of the array; the contents do not change. */
    method Adjust()
      requires Valid()
      modifies this`head, data
      ensures Valid() && head == 0
      ensures Contents() == old(Contents())
      ensures data[..] == old(data[..])[old(head)..old(head) + length] + old(data[..])[length..]
    {
      if head > 0 {
        if length > 0 {
          MoveDown(head, length);
        }
        head := 0;
      }
    }

    /** Takes over the contents of a buffer that fits. */
    method Copy(other: IoBuf)
      requires Valid() && other.Valid() && other.data != data && other.length <= capacity
      modifies this`head, this`length, data
      ensures Valid() && head == 0 && length == other.length
      ensures Contents() == old(other.Contents())
      ensures data[..] == old(other.data[..])[other.head..other.head + other.length] + old(data[..])[other.length..]
    {
      ghost var source, rest := other.data[..][other.head..other.head + other.length], data[..][other.length..];
      assert source == other.Contents();
      forall i | 0 <= i < other.length {
        data[i] := other.data[other.head + i];
      }
      assert data[..other.length] == source && data[other.length..] == rest;
      length := other.length;
      head := 0;
      assert data[..] == data[..length] + data[length..];
    }

    method Pop(len: nat)
      requires len <= length
      modifies this`head, this`length
      ensures head == old(head) + len && length == old(length) - len
      ensures old(Valid()) ==> Valid() && Contents() == old(Contents())[len..]
    {
      head := head + len;
      length := length - len;
    }

    /** Stores bytes at the place the program computes: `length` bytes from the start of the array. That
        is the end of the contents only if the head is at the start. */
    method Append(bytes: seq<byte>)
      requires data.Length == capacity && length + |bytes| <= capacity
      modifies this`length, data
      ensures length == old(length) + |bytes|
      ensures data[..] == old(data[..])[..old(length)] + bytes + old(data[..])[length..]
      ensures head == 0 ==> Valid() && Contents() == old(data[..length]) + bytes
    {
      forall i | 0 <= i < |bytes| {
        data[length + i] := bytes[i];
      }
      length := length + |bytes|;
    }
  }
}
