/** A value model of the ring-buffer FIFO of fifo.py: the whole state of a
    FIFO as one datatype, the effect of each operation as a function of the
    old state, and the properties the operations give the buffer.  The class
    `Fifo.FIFO` is proved to change its fields exactly as these functions say. */
module Ring {
  import opened Modular

  /** Outcome of a read: the samples, or the underflow error carrying the
      requested and the available counts. */
  datatype ReadResult = Elements(values: seq<real>) | Underflow(requested: nat, available: nat)

  /** The backing storage, both cursors and the flag that tells "full" from
      "empty" when the cursors coincide. */
  datatype RingState = RingState(buf: seq<real>, writeIndex: nat, readIndex: nat, isFull: bool)
  {
    predicate Valid()
    {
      0 < |buf| && writeIndex < |buf| && readIndex < |buf|
    }
  }

  /** The number of available values as fifo.py counts it from the two
      cursors and the flag: the unique count in [0, size] that takes the read
      cursor to the write cursor, with the flag choosing between 0 and size. */
  function CountAvailable(size: nat, w: nat, r: nat, full: bool): (k: nat)
    requires 0 < size && w < size && r < size
    ensures k <= size
    ensures (r + k) % size == w
    ensures k == 0 <==> w == r && !full
    ensures k == size <==> w == r && full
  {
    var d := (w - r) % size;
    CursorGap(size, w, r);
    if d == 0 then (if full then size else 0) else d
  }

  /** The forward distance from the read cursor to the write cursor. */
  lemma CursorGap(size: nat, w: nat, r: nat)
    requires 0 < size && w < size && r < size
    ensures (r + (w - r) % size) % size == w
    ensures (w - r) % size == 0 <==> w == r
  {
    ModOfSmall(w, size);
    if w >= r {
      ModOfSmall(w - r, size);
    } else {
      ModPlusMultiple(w - r, 1, size);
      ModOfSmall(w - r + size, size);
      ModPlusMultiple(w, 1, size);
    }
  }

  function Available(s: RingState): (k: nat)
    requires s.Valid()
  {
    CountAvailable(|s.buf|, s.writeIndex, s.readIndex, s.isFull)
  }

  /** `count` consecutive slots of `buf` starting at `start`, wrapping around. */
  function Slots(buf: seq<real>, start: nat, count: nat): (r: seq<real>)
    requires 0 < |buf|
  {
    seq(count, i requires 0 <= i < count => buf[(start + i) % |buf|])
  }

  /** The samples a reader would see, oldest first: the available count of
      slots from the read cursor. */
  function Unread(s: RingState): seq<real>
    requires s.Valid()
  {
    Slots(s.buf, s.readIndex, Available(s))
  }

  /** The storage after `data` is stored element by element at consecutive
      slots from `w`, wrapping around; a later element overwrites an earlier
      one that lands on the same slot. */
  function Stamp(buf: seq<real>, w: nat, data: seq<real>): (b: seq<real>)
    requires 0 < |buf|
    ensures |b| == |buf|
    decreases |data|
  {
    if data == [] then buf
    else Stamp(buf, w, data[..|data| - 1])[(w + |data| - 1) % |buf| := data[|data| - 1]]
  }

  /** A freshly constructed FIFO of the given size. */
  function Init(size: nat): (s: RingState)
    requires 0 < size
    ensures s.Valid() && |s.buf| == size
    ensures Available(s) == 0 && Unread(s) == []
    ensures forall j :: 0 <= j < size ==> s.buf[j] == 0.0
  {
    RingState(seq(size, _ => 0.0), 0, 0, false)
  }

  /** fifo.py's write: store the chunk, advance the write cursor past it and,
      when the chunk alone fills the buffer, move the read cursor onto the
      write cursor and raise the flag. */
  function Write(s: RingState, data: seq<real>): (t: RingState)
    requires s.Valid() && 0 < |data|
    ensures t.Valid() && |t.buf| == |s.buf|
  {
    var n := |s.buf|;
    var w := ((s.writeIndex + |data| - 1) % n + 1) % n;
    var b := Stamp(s.buf, s.writeIndex, data);
    if |data| >= n then RingState(b, w, w, true)
    else RingState(b, w, s.readIndex, s.isFull)
  }

  /** fifo.py's read: nothing for a request of zero, an underflow error that
      changes nothing for a request beyond the available count, and otherwise
      the requested slots from the read cursor, with the read cursor moved past
      them and the flag cleared when the cursors meet. */
  function Read(s: RingState, size: nat): (res: (ReadResult, RingState))
    requires s.Valid()
    ensures res.1.Valid() && res.1.buf == s.buf && res.1.writeIndex == s.writeIndex
    ensures res.0.Underflow? <==> size > Available(s)
    ensures res.0.Underflow? ==> res == (Underflow(size, Available(s)), s)
    ensures size == 0 ==> res == (Elements([]), s)
    ensures res.0.Elements? ==> |res.0.values| == size
  {
    var numAvail := Available(s);
    if size == 0 then (Elements([]), s)
    else if size > numAvail then (Underflow(size, numAvail), s)
    else
      var n := |s.buf|;
      var r := ((s.readIndex + size - 1) % n + 1) % n;
      (Elements(Slots(s.buf, s.readIndex, size)),
       RingState(s.buf, s.writeIndex, r, if s.writeIndex == r then false else s.isFull))
  }

  /** The cursor arithmetic of fifo.py, one past the last touched slot, is
      the old cursor advanced by the count. */
  lemma AdvancePastLast(i: nat, count: nat, n: nat)
    requires 0 < n && 0 < count
    ensures ((i + count - 1) % n + 1) % n == (i + count) % n
  {
    ModAddMod(i + count - 1, 1, n);
  }

  /** Each of the last |buf| elements of a chunk survives on the slot it was
      written to. */
  lemma {:induction false} StampRecent(buf: seq<real>, w: nat, data: seq<real>, k: nat)
    requires 0 < |buf| && k < |data| && |data| - k <= |buf|
    ensures Stamp(buf, w, data)[(w + k) % |buf|] == data[k]
    decreases |data|
  {
    var m := |data| - 1;
    if k < m {
      ModDistinct(w + k, w + m, |buf|);
      assert data[..m][k] == data[k];
      StampRecent(buf, w, data[..m], k);
    }
  }

  /** A slot whose distance from the start slot is at least the chunk's
      length is not written. */
  lemma {:induction false} StampUntouched(buf: seq<real>, w: nat, data: seq<real>, j: nat)
    requires 0 < |buf| && j < |buf| && (j - w) % |buf| >= |data|
    ensures Stamp(buf, w, data)[j] == buf[j]
    decreases |data|
  {
    if data != [] {
      var m := |data| - 1;
      var n := |buf|;
      assert (w + m) % n != j by {
        ModAddMod(w + m, -(w as int), n);
        ModOfSmall(m, n);
      }
      StampUntouched(buf, w, data[..m], j);
      assert Stamp(buf, w, data) == Stamp(buf, w, data[..m])[(w + m) % n := data[m]];
    }
  }

  /** The cursors and the flag after a write shorter than the buffer. */
  lemma WriteCursors(s: RingState, data: seq<real>)
    requires s.Valid() && 0 < |data| < |s.buf|
    ensures Write(s, data).writeIndex == (s.writeIndex + |data|) % |s.buf|
    ensures Write(s, data).readIndex == s.readIndex && Write(s, data).isFull == s.isFull
  {
    AdvancePastLast(s.writeIndex, |data|, |s.buf|);
  }

  /** A write shorter than the buffer puts data[i] at the slot i past the old
      write cursor and leaves every other slot as it was. */
  lemma WriteShort(s: RingState, data: seq<real>)
    requires s.Valid() && 0 < |data| < |s.buf|
    ensures Write(s, data).writeIndex == (s.writeIndex + |data|) % |s.buf|
    ensures Write(s, data).readIndex == s.readIndex && Write(s, data).isFull == s.isFull
    ensures forall i :: 0 <= i < |data| ==> Write(s, data).buf[(s.writeIndex + i) % |s.buf|] == data[i]
    ensures forall j :: 0 <= j < |s.buf| && (j - s.writeIndex) % |s.buf| >= |data| ==> Write(s, data).buf[j] == s.buf[j]
  {
    WriteCursors(s, data);
    StampAllRecent(s.buf, s.writeIndex, data);
    StampAllUntouched(s.buf, s.writeIndex, data);
  }

  /** Every element of a chunk shorter than the buffer ends up on its slot. */
  lemma StampAllRecent(buf: seq<real>, w: nat, data: seq<real>)
    requires 0 < |buf| && |data| <= |buf|
    ensures forall i :: 0 <= i < |data| ==> Stamp(buf, w, data)[(w + i) % |buf|] == data[i]
  {
    forall i | 0 <= i < |data| ensures Stamp(buf, w, data)[(w + i) % |buf|] == data[i] {
      StampRecent(buf, w, data, i);
    }
  }

  /** Every slot the chunk does not reach keeps its value. */
  lemma StampAllUntouched(buf: seq<real>, w: nat, data: seq<real>)
    requires 0 < |buf|
    ensures forall j :: 0 <= j < |buf| && (j - w) % |buf| >= |data| ==> Stamp(buf, w, data)[j] == buf[j]
  {
    forall j | 0 <= j < |buf| && (j - w) % |buf| >= |data| ensures Stamp(buf, w, data)[j] == buf[j] {
      StampUntouched(buf, w, data, j);
    }
  }

  /** A chunk at least as long as the buffer leaves it full (both cursors
      on the slot after the chunk) and holding the last |buf| elements of the
      chunk, in order. */
  lemma WriteOverrun(s: RingState, data: seq<real>)
    requires s.Valid() && |data| >= |s.buf|
    ensures Write(s, data).writeIndex == (s.writeIndex + |data|) % |s.buf|
    ensures Write(s, data).readIndex == Write(s, data).writeIndex && Write(s, data).isFull
    ensures Available(Write(s, data)) == |s.buf|
    ensures Unread(Write(s, data)) == data[|data| - |s.buf|..]
  {
    var n, t := |s.buf|, Write(s, data);
    AdvancePastLast(s.writeIndex, |data|, n);
    forall i | 0 <= i < n ensures Unread(t)[i] == data[|data| - n + i] {
      var k := |data| - n + i;
      StampRecent(s.buf, s.writeIndex, data, k);
      ModAddMod(s.writeIndex + |data|, i, n);
      ModPlusMultiple(s.writeIndex + k, 1, n);
    }
  }

  /** A write that does not reach unread data appends the chunk to the unread
      samples: this is the first-in first-out property of writing. */
  lemma WriteAppends(s: RingState, data: seq<real>)
    requires s.Valid() && 0 < |data| && Available(s) + |data| < |s.buf|
    ensures Available(Write(s, data)) == Available(s) + |data|
    ensures Unread(Write(s, data)) == Unread(s) + data
  {
    var k, t := Available(s), Write(s, data);
    WriteAppendsCount(s, data);
    forall i | 0 <= i < k + |data| ensures Unread(t)[i] == (Unread(s) + data)[i] {
      WriteAppendsSlot(s, data, i);
    }
  }

  /** The count after a write that stays below capacity. */
  lemma WriteAppendsCount(s: RingState, data: seq<real>)
    requires s.Valid() && 0 < |data| && Available(s) + |data| < |s.buf|
    ensures Available(Write(s, data)) == Available(s) + |data|
  {
    WriteCursors(s, data);
    CountAdvance(|s.buf|, s.writeIndex, s.readIndex, s.isFull, |data|);
  }

  /** Moving the write cursor on by m, short of a full turn, raises the
      count by m. */
  lemma CountAdvance(n: nat, w: nat, r: nat, full: bool, m: nat)
    requires 0 < n && w < n && r < n && CountAvailable(n, w, r, full) + m < n
    ensures CountAvailable(n, (w + m) % n, r, full) == CountAvailable(n, w, r, full) + m
  {
    var k := CountAvailable(n, w, r, full);
    var w2 := (w + m) % n;
    if m == 0 {
      ModOfSmall(w, n);
    } else {
      var c := r + k;
      assert w == c % n;
      ModAddMod(c, m, n);
      assert (c + m) % n == w2;
      CountIs(n, w2, r, full, k + m);
    }
  }

  /** A non-zero gap short of a full turn is the count, whatever the flag. */
  lemma CountIs(n: nat, w: nat, r: nat, full: bool, j: nat)
    requires 0 < j < n && w < n && r < n && (r + j) % n == w
    ensures CountAvailable(n, w, r, full) == j
  {
    assert (w - r) % n == j by {
      ModSubMod(r + j, r, n);
      ModOfSmall(r, n);
      ModOfSmall(j, n);
    }
  }

  /** Slot i from the read cursor after a write that stays below capacity:
      an old unread sample, or one of the chunk's. */
  lemma WriteAppendsSlot(s: RingState, data: seq<real>, i: nat)
    requires s.Valid() && 0 < |data| && Available(s) + |data| < |s.buf| && i < Available(s) + |data|
    ensures Write(s, data).buf[(s.readIndex + i) % |s.buf|] == (Unread(s) + data)[i]
  {
    var n, k := |s.buf|, Available(s);
    var r, w := s.readIndex, s.writeIndex;
    if i < k {
      var j := (r + i) % n;
      assert (j - w) % n == i - k + n by {
        ModSubMod(r + i, r + k, n);
        ModPlusMultiple(i - k, 1, n);
        ModOfSmall(i - k + n, n);
      }
      StampUntouched(s.buf, w, data, j);
    } else {
      var q := i - k;
      ModAddMod(r + k, q, n);
      StampRecent(s.buf, w, data, q);
    }
  }

  /** A write shorter than the buffer that lands the write cursor exactly on
      the read cursor of a buffer whose flag is down makes the buffer report
      itself empty: fifo.py raises the flag only for a single chunk of the
      buffer's size or more. */
  lemma ExactFillReadsEmpty(s: RingState, data: seq<real>)
    requires s.Valid() && !s.isFull && 0 < |data| < |s.buf| && Available(s) + |data| == |s.buf|
    ensures Available(Write(s, data)) == 0 && Unread(Write(s, data)) == []
  {
    var n, k := |s.buf|, Available(s);
    AdvancePastLast(s.writeIndex, |data|, n);
    ModAddMod(s.readIndex + k, |data|, n);
    ModPlusMultiple(s.readIndex, 1, n);
    ModOfSmall(s.readIndex, n);
  }

  /** A successful read returns the oldest unread samples and leaves the rest
      unread: the available count drops by exactly the count read. */
  lemma ReadConsumes(s: RingState, size: nat)
    requires s.Valid() && 0 < size <= Available(s)
    ensures Read(s, size).0 == Elements(Unread(s)[..size])
    ensures Read(s, size).1.readIndex == (s.readIndex + size) % |s.buf|
    ensures Read(s, size).1.isFull == (s.isFull && s.writeIndex != Read(s, size).1.readIndex)
    ensures Available(Read(s, size).1) == Available(s) - size
    ensures Unread(Read(s, size).1) == Unread(s)[size..]
  {
    ReadFields(s, size);
    ReadCount(s, size);
    ReadRest(s, size);
  }

  /** The values and the new cursor and flag of a successful read. */
  lemma ReadFields(s: RingState, size: nat)
    requires s.Valid() && 0 < size <= Available(s)
    ensures Read(s, size).0 == Elements(Unread(s)[..size])
    ensures Read(s, size).1.readIndex == (s.readIndex + size) % |s.buf|
    ensures Read(s, size).1.isFull == (s.isFull && s.writeIndex != Read(s, size).1.readIndex)
  {
    AdvancePastLast(s.readIndex, size, |s.buf|);
    assert Slots(s.buf, s.readIndex, size) == Unread(s)[..size];
  }

  /** A successful read lowers the count by the number read. */
  lemma ReadCount(s: RingState, size: nat)
    requires s.Valid() && 0 < size <= Available(s)
    requires Read(s, size).1.readIndex == (s.readIndex + size) % |s.buf|
    requires Read(s, size).1.isFull == (s.isFull && s.writeIndex != Read(s, size).1.readIndex)
    ensures Available(Read(s, size).1) == Available(s) - size
  {
    var t := Read(s, size).1;
    CountRetreat(|s.buf|, s.writeIndex, s.readIndex, s.isFull, size, t.readIndex, t.isFull);
  }

  /** Moving the read cursor on by `size`, at most the count, and clearing
      the flag when the cursors meet, lowers the count by `size`. */
  lemma CountRetreat(n: nat, w: nat, r: nat, full: bool, size: nat, r2: nat, full2: bool)
    requires 0 < n && w < n && r < n && 0 < size <= CountAvailable(n, w, r, full)
    requires r2 == (r + size) % n && full2 == (full && w != r2)
    ensures CountAvailable(n, w, r2, full2) == CountAvailable(n, w, r, full) - size
  {
    var k := CountAvailable(n, w, r, full);
    if size < k {
      assert (r2 + (k - size)) % n == w by { ModAddMod(r + size, k - size, n); }
      CountIs(n, w, r2, full2, k - size);
    } else {
      assert r2 == w;
    }
  }

  /** What a successful read leaves unread is the rest of what was unread. */
  lemma ReadRest(s: RingState, size: nat)
    requires s.Valid() && 0 < size <= Available(s)
    requires Read(s, size).1.readIndex == (s.readIndex + size) % |s.buf|
    requires Available(Read(s, size).1) == Available(s) - size
    ensures Unread(Read(s, size).1) == Unread(s)[size..]
  {
    var t := Read(s, size).1;
    assert Unread(t) == Slots(s.buf, t.readIndex, Available(s) - size);
    SlotsShift(s.buf, s.readIndex, size, Available(s) - size);
  }

  /** The slots from `size` past `start` are the tail of the slots from `start`. */
  lemma SlotsShift(buf: seq<real>, start: nat, size: nat, count: nat)
    requires 0 < |buf|
    ensures Slots(buf, (start + size) % |buf|, count) == Slots(buf, start, size + count)[size..]
  {
    var n := |buf|;
    var l, r := Slots(buf, (start + size) % n, count), Slots(buf, start, size + count)[size..];
    forall i | 0 <= i < count ensures l[i] == r[i] {
      var c := start + size;
      ModAddMod(c, i, n);
      assert l[i] == buf[(c % n + i) % n];
      assert r[i] == buf[(c + i) % n];
    }
  }

  /** Reading everything available leaves nothing available. */
  lemma ReadAllDrains(s: RingState)
    requires s.Valid()
    ensures Read(s, Available(s)).0 == Elements(Unread(s))
    ensures Available(Read(s, Available(s)).1) == 0
  {
    if Available(s) > 0 {
      ReadConsumes(s, Available(s));
    }
  }

  /** Round trip: a chunk of at most the buffer's size written into an empty
      FIFO is read back unchanged and in order, leaving the FIFO empty. */
  lemma WriteThenRead(s: RingState, data: seq<real>)
    requires s.Valid() && Available(s) == 0 && 0 < |data| <= |s.buf|
    ensures Read(Write(s, data), |data|).0 == Elements(data)
    ensures Available(Read(Write(s, data), |data|).1) == 0
  {
    var t := Write(s, data);
    if |data| < |s.buf| {
      WriteAppends(s, data);
      assert Unread(t) == data;
    } else {
      WriteOverrun(s, data);
    }
    ReadConsumes(t, |data|);
  }

  /** The worked example of an overrun: ten values into a fresh FIFO of eight
      slots leave the last eight available, in order. */
  lemma EightSlotOverrun()
    ensures Available(Write(Init(8), [1.0, 2.0, 3.0, 4.0, 5.0, 6.0, 7.0, 8.0, 9.0, 10.0])) == 8
    ensures Read(Write(Init(8), [1.0, 2.0, 3.0, 4.0, 5.0, 6.0, 7.0, 8.0, 9.0, 10.0]), 8).0
         == Elements([3.0, 4.0, 5.0, 6.0, 7.0, 8.0, 9.0, 10.0])
  {
    var data := [1.0, 2.0, 3.0, 4.0, 5.0, 6.0, 7.0, 8.0, 9.0, 10.0];
    WriteOverrun(Init(8), data);
    ReadConsumes(Write(Init(8), data), 8);
    assert data[2..] == [3.0, 4.0, 5.0, 6.0, 7.0, 8.0, 9.0, 10.0];
  }

  /** Two writes that together exactly fill a fresh FIFO of two slots leave it
      reporting nothing available. */
  lemma TwoSlotExactFill()
    ensures Available(Write(Write(Init(2), [1.0]), [2.0])) == 0
  {
    WriteAppends(Init(2), [1.0]);
    ExactFillReadsEmpty(Write(Init(2), [1.0]), [2.0]);
  }
}
