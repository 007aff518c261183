/** The FIFO class of fifo.py: a fixed array of samples, two cursors and
    the flag that tells a full buffer from an empty one.  Each method is
    proved to change the fields exactly as the value model in `Ring` does. */
module Fifo {
  import Ring

  class FIFO {
    /** The backing storage; its length is the buffer size. */
    const buf: array<real>
    var writeIndex: nat
    var readIndex: nat
    var isFull: bool

    ghost predicate Valid()
      reads this
    {
      0 < buf.Length && writeIndex < buf.Length && readIndex < buf.Length
    }

    /** The FIFO's fields as a value. */
    ghost function State(): (s: Ring.RingState)
      reads this, buf
      requires Valid()
      ensures s.Valid()
    {
      Ring.RingState(buf[..], writeIndex, readIndex, isFull)
    }

    /** The samples a reader would see, oldest first. */
    ghost function Unread(): seq<real>
      reads this, buf
      requires Valid()
    {
      Ring.Unread(State())
    }

    /** A buffer of `size` zeroed slots with both cursors at slot 0 and the
        flag down, so that nothing is available. */
    constructor (size: nat)
      requires 0 < size
      ensures Valid() && fresh(buf) && buf.Length == size
      ensures writeIndex == 0 && readIndex == 0 && !isFull
      ensures forall j :: 0 <= j < size ==> buf[j] == 0.0
      ensures NumAvailable() == 0 && Unread() == []
      ensures State() == Ring.Init(size)
    {
      buf := new real[size](_ => 0.0);
      writeIndex := 0;
      readIndex := 0;
      isFull := false;
    }

    /** The number of values available for reading; it reads the cursors and
        the flag only. */
    function NumAvailable(): (k: nat)
      reads this
      requires Valid()
      ensures k <= buf.Length
      ensures k == 0 <==> writeIndex == readIndex && !isFull
      ensures k == buf.Length <==> writeIndex == readIndex && isFull
    {
      Ring.CountAvailable(buf.Length, writeIndex, readIndex, isFull)
    }

    /** Stores `data` slot by slot from the write cursor, wrapping around, so
        that of two elements landing on one slot the later one stays; then
        advances the write cursor past the chunk and, for a chunk of the
        buffer's size or more, moves the read cursor onto it and raises the
        flag. */
    method Write(data: seq<real>)
      requires Valid() && 0 < |data|
      modifies this, buf
      ensures Valid() && State() == Ring.Write(old(State()), data)
      ensures writeIndex == (old(writeIndex) + |data|) % buf.Length
      ensures |data| < buf.Length ==> readIndex == old(readIndex) && isFull == old(isFull)
      ensures |data| < buf.Length ==>
        forall i :: 0 <= i < |data| ==> buf[(old(writeIndex) + i) % buf.Length] == data[i]
      ensures |data| < buf.Length ==>
        forall j :: 0 <= j < buf.Length && (j - old(writeIndex)) % buf.Length >= |data| ==> buf[j] == old(buf[j])
      ensures |data| >= buf.Length ==> readIndex == writeIndex && isFull && NumAvailable() == buf.Length
      ensures |data| >= buf.Length ==> Unread() == data[|data| - buf.Length..]
    {
      ghost var s := State();
      Store(data);
      var n := buf.Length;
      var last := (writeIndex + |data| - 1) % n;
      writeIndex := (last + 1) % n;
      if |data| >= n {
        readIndex := writeIndex;
        isFull := true;
      }
      assert State() == Ring.Write(s, data);
      if |data| < n {
        Ring.WriteShort(s, data);
      } else {
        Ring.WriteOverrun(s, data);
      }
    }

    /** The element-by-element store of a write, cursors untouched. */
    method Store(data: seq<real>)
      requires Valid()
      modifies buf
      ensures buf[..] == Ring.Stamp(old(buf[..]), writeIndex, data)
    {
      var n := buf.Length;
      for i := 0 to |data|
        invariant buf[..] == Ring.Stamp(old(buf[..]), writeIndex, data[..i])
      {
        buf[(writeIndex + i) % n] := data[i];
        assert data[..i + 1][..i] == data[..i];
      }
      assert data[..|data|] == data;
    }

    /** Reads `size` values: nothing for zero, an underflow error carrying
        the requested and available counts when more are asked for than are
        available (nothing changes then), and otherwise the oldest `size`
        unread values, in order, with the read cursor moved past them and the
        flag cleared when the cursors meet. */
    method Read(size: nat) returns (res: Ring.ReadResult)
      requires Valid()
      modifies this
      ensures Valid() && (res, State()) == Ring.Read(old(State()), size)
      ensures writeIndex == old(writeIndex)
      ensures res.Underflow? <==> size > old(NumAvailable())
      ensures res.Underflow? ==>
        res == Ring.Underflow(size, old(NumAvailable())) &&
        readIndex == old(readIndex) && isFull == old(isFull)
      ensures size == 0 ==> res == Ring.Elements([]) && readIndex == old(readIndex) && isFull == old(isFull)
      ensures 0 < size <= old(NumAvailable()) ==>
        && res == Ring.Elements(old(Unread())[..size])
        && readIndex == (old(readIndex) + size) % buf.Length
        && isFull == (old(isFull) && writeIndex != readIndex)
        && NumAvailable() == old(NumAvailable()) - size
        && Unread() == old(Unread())[size..]
    {
      ghost var s := State();
      var numAvail := NumAvailable();
      if size == 0 {
        return Ring.Elements([]);
      }
      if size > numAvail {
        return Ring.Underflow(size, numAvail);
      }
      var start := readIndex;
      var n := buf.Length;
      readIndex := ((start + size - 1) % n + 1) % n;
      if writeIndex == readIndex {
        isFull := false;
      }
      res := Ring.Elements(Ring.Slots(buf[..], start, size));
      Ring.ReadConsumes(s, size);
    }
  }
}
