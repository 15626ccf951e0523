/** The bounded append buffer (SmallLake, and TachyonBuffer alike): bytes written since the last reset. */
module Lake {
  import opened Bytes

  class SmallLake {
    const capacity: nat
    var data: seq<byte>

    constructor (capacity: nat)
      ensures this.capacity == capacity && data == []
    {
      this.capacity := capacity;
      data := [];
    }

    method ResetPos()
      modifies this
      ensures data == []
    {
      data := [];
    }

    /** The write is unchecked in the source: the bytes must fit. */
    method Write(bytes: seq<byte>)
      requires |data| + |bytes| <= capacity
      modifies this
      ensures data == old(data) + bytes
    {
      data := data + bytes;
    }

    /** write_num_str_fixed(n, 2). */
    method WriteNumFixed2(n: nat)
      requires n < 100 && |data| + 2 <= capacity
      modifies this
      ensures data == old(data) + TwoDigits(n)
    {
      data := data + TwoDigits(n);
    }
  }

  const ZERO: byte := 48

  function TwoDigits(n: nat): (r: seq<byte>)
    requires n < 100
    ensures |r| == 2
  {
    [ZERO + n / 10, ZERO + n % 10]
  }
}
