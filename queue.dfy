/**
 * The per-peripheral command queue (`cp_enqueue_command`, `cp_dequeue_command`):
 * a fixed-size byte ring with `head` and `tail` indices. Each entry is written
 * one byte past `head`, so one unused gap byte precedes every record, and a
 * record's first byte is its own length.
 */
module CommandQueue {
  import opened Bytes

  /** Capacity of the ring, `OSDP_PD_CMD_QUEUE_SIZE`. */
  const QUEUE_SIZE: int := 128

  /** An index below twice the capacity, brought back into the ring. */
  function Wrap(i: int): (r: int)
    requires 0 <= i < 2 * QUEUE_SIZE
    ensures 0 <= r < QUEUE_SIZE && r == i % QUEUE_SIZE
  {
    if i >= QUEUE_SIZE then i - QUEUE_SIZE else i
  }

  /** A stored command: its first byte is its total length. */
  predicate IsRecord(rec: seq<byte>)
  {
    |rec| >= 1 && rec[0] == |rec|
  }

  /**
   * The free space `fs` the enqueue computes: `tail - head`, taken as the
   * whole ring when not positive. It is what the used bytes leave of the
   * ring, and it is the whole ring exactly when the queue reads as empty.
   */
  function FreeSpace(head: int, tail: int): (fs: int)
    requires 0 <= head < QUEUE_SIZE && 0 <= tail < QUEUE_SIZE
    ensures 0 < fs <= QUEUE_SIZE && fs + UsedBytes(head, tail) == QUEUE_SIZE
    ensures fs == QUEUE_SIZE <==> head == tail
  {
    if tail - head <= 0 then tail - head + QUEUE_SIZE else tail - head
  }

  /** `n` bytes of the ring read from `from` onward, wrapping at the physical end. */
  function Unroll(ring: seq<byte>, from: int, n: int): (r: seq<byte>)
    requires |ring| == QUEUE_SIZE && 0 <= from < QUEUE_SIZE && 0 <= n <= QUEUE_SIZE
    ensures |r| == n
  {
    seq(n, k requires 0 <= k < n => ring[Wrap(from + k)])
  }

  /** Distance from `start` forward to `i` around the ring. */
  function Dist(start: int, i: int): (d: int)
    requires 0 <= start < QUEUE_SIZE && 0 <= i < QUEUE_SIZE
    ensures 0 <= d < QUEUE_SIZE && Wrap(start + d) == i
  {
    if i >= start then i - start else i - start + QUEUE_SIZE
  }

  /** The ring after `rec` is copied in from `start`, wrapping at the physical end. */
  function RingWrite(ring: seq<byte>, start: int, rec: seq<byte>): (r: seq<byte>)
    requires |ring| == QUEUE_SIZE && 0 <= start < QUEUE_SIZE && |rec| <= QUEUE_SIZE
    ensures |r| == QUEUE_SIZE
  {
    seq(QUEUE_SIZE, i requires 0 <= i < QUEUE_SIZE =>
      if Dist(start, i) < |rec| then rec[Dist(start, i)] else ring[i])
  }

  /**
   * `lin` (the used part of the ring, read from `tail`) holds `recs` in order:
   * each record is preceded by one gap byte.
   */
  predicate Holds(lin: seq<byte>, recs: seq<seq<byte>>)
    decreases |recs|
  {
    if recs == [] then lin == []
    else
      var n := |recs[0]|;
      1 + n <= |lin| && lin[1..1 + n] == recs[0] && Holds(lin[1 + n..], recs[1..])
  }

  /** Appending a gap byte and a record to the used part appends that record to the contents. */
  lemma {:induction false} HoldsAppend(lin: seq<byte>, recs: seq<seq<byte>>, gap: byte, rec: seq<byte>)
    requires Holds(lin, recs)
    ensures Holds(lin + ([gap] + rec), recs + [rec])
    decreases |recs|
  {
    var entry := [gap] + rec;
    if recs == [] {
      assert lin + entry == entry;
      assert entry[1..1 + |rec|] == rec;
      assert entry[1 + |rec|..] == [];
      assert recs + [rec] == [rec];
    } else {
      var n := |recs[0]|;
      var rest := lin[1 + n..];
      HoldsAppend(rest, recs[1..], gap, rec);
      assert (recs + [rec])[0] == recs[0];
      assert (lin + entry)[1..1 + n] == lin[1..1 + n];
      assert (lin + entry)[1 + n..] == rest + entry;
      assert (recs + [rec])[1..] == recs[1..] + [rec];
    }
  }

  /** Bytes in use from `tail` up to `head`, gap bytes included. */
  function UsedBytes(head: int, tail: int): int
  {
    if head >= tail then head - tail else head - tail + QUEUE_SIZE
  }

  /**
   * The queue invariant on values: the bytes from `tail` up to `head` are a
   * gap byte and a record for each of `recs` in turn, and every record
   * starts with its own length.
   */
  ghost predicate RingHolds(ring: seq<byte>, head: int, tail: int, recs: seq<seq<byte>>)
  {
    && |ring| == QUEUE_SIZE
    && 0 <= head < QUEUE_SIZE && 0 <= tail < QUEUE_SIZE
    && (forall r :: r in recs ==> IsRecord(r))
    && Holds(Unroll(ring, tail, UsedBytes(head, tail)), recs)
  }

  /** Reading on from `d` bytes past `from` is the rest of the longer read from `from`. */
  lemma UnrollShift(ring: seq<byte>, from: int, d: int, n: int)
    requires |ring| == QUEUE_SIZE && 0 <= from < QUEUE_SIZE && 0 <= d < QUEUE_SIZE && 0 <= n && d + n <= QUEUE_SIZE
    ensures Unroll(ring, Wrap(from + d), n) == Unroll(ring, from, d + n)[d..]
  {
    var lhs := Unroll(ring, Wrap(from + d), n);
    var rhs := Unroll(ring, from, d + n)[d..];
    forall k | 0 <= k < n ensures lhs[k] == rhs[k] {
      assert Wrap(Wrap(from + d) + k) == Wrap(from + d + k);
    }
  }

  /**
   * Writing a record at one past the end of the used part keeps the used part
   * and appends the gap byte and the record to it, as long as everything fits
   * without reaching the start again.
   */
  lemma UnrollAfterWrite(ring: seq<byte>, tail: int, used: int, rec: seq<byte>)
    requires |ring| == QUEUE_SIZE && 0 <= tail < QUEUE_SIZE && 0 <= used && used + 1 + |rec| < QUEUE_SIZE
    ensures Unroll(RingWrite(ring, Wrap(Wrap(tail + used) + 1), rec), tail, used + 1 + |rec|)
            == Unroll(ring, tail, used) + [ring[Wrap(tail + used)]] + rec
  {
    var start := Wrap(Wrap(tail + used) + 1);
    var w := RingWrite(ring, start, rec);
    var lhs := Unroll(w, tail, used + 1 + |rec|);
    var rhs := Unroll(ring, tail, used) + [ring[Wrap(tail + used)]] + rec;
    forall k | 0 <= k < used + 1 + |rec| ensures lhs[k] == rhs[k] {
      var p := Wrap(tail + k);
      if k <= used {
        assert Dist(start, p) == QUEUE_SIZE - 1 - used + k;
      } else {
        assert Dist(start, p) == k - used - 1;
      }
    }
  }

  /** A queue reads as empty (`head == tail`) exactly when it holds no record. */
  lemma RingEmpty(ring: seq<byte>, head: int, tail: int, recs: seq<seq<byte>>)
    requires RingHolds(ring, head, tail, recs)
    ensures head == tail <==> recs == []
  {
    if recs != [] {
      assert recs[0] in recs;
    }
  }

  /**
   * An accepted enqueue keeps the invariant: writing `rec` one past `head`
   * and moving `head` past it leaves every stored record in place and adds
   * `rec` at the back.
   */
  lemma RingPush(ring: seq<byte>, head: int, tail: int, recs: seq<seq<byte>>, rec: seq<byte>)
    requires RingHolds(ring, head, tail, recs) && IsRecord(rec) && EnqueueFits(head, tail, |rec|)
    ensures RingHolds(RingWrite(ring, Wrap(head + 1), rec), HeadAfter(head, |rec|), tail, recs + [rec])
  {
    var used := UsedBytes(head, tail);
    assert head == Wrap(tail + used);
    UnrollAfterWrite(ring, tail, used, rec);
    HoldsAppend(Unroll(ring, tail, used), recs, ring[head], rec);
    assert Unroll(ring, tail, used) + [ring[head]] + rec == Unroll(ring, tail, used) + ([ring[head]] + rec);
    assert UsedBytes(HeadAfter(head, |rec|), tail) == used + 1 + |rec|;
  }

  /**
   * The oldest record sits one past `tail`, its first byte is its length,
   * and moving `tail` past it keeps the invariant for the records after it.
   */
  lemma RingFront(ring: seq<byte>, head: int, tail: int, recs: seq<seq<byte>>)
    requires RingHolds(ring, head, tail, recs) && recs != []
    ensures |recs[0]| < QUEUE_SIZE - 1
    ensures ring[Wrap(tail + 1)] == |recs[0]|
    ensures Unroll(ring, Wrap(tail + 1), |recs[0]|) == recs[0]
    ensures RingHolds(ring, head, HeadAfter(tail, |recs[0]|), recs[1..])
  {
    var used := UsedBytes(head, tail);
    var lin := Unroll(ring, tail, used);
    var n := |recs[0]|;
    assert recs[0] in recs;
    assert lin[1..1 + n] == recs[0];
    assert lin[1] == recs[0][0];
    UnrollShift(ring, tail, 1, n);
    assert Unroll(ring, tail, 1 + n) == lin[..1 + n];
    UnrollShift(ring, tail, 1 + n, used - 1 - n);
    assert UsedBytes(head, HeadAfter(tail, n)) == used - 1 - n;
    forall r | r in recs[1..] ensures IsRecord(r) {
      assert r in recs;
    }
  }

  /** The enqueue's free-space test: the record and its gap byte must fit strictly inside the free space. */
  predicate EnqueueFits(head: int, tail: int, len: int)
    requires 0 <= head < QUEUE_SIZE && 0 <= tail < QUEUE_SIZE
  {
    len + 1 < FreeSpace(head, tail)
  }

  /** The test as written: `len > fs` rejects, and so does a start index equal to `tail`. */
  predicate EnqueueFitsAsWritten(head: int, tail: int, len: int)
    requires 0 <= head < QUEUE_SIZE && 0 <= tail < QUEUE_SIZE
  {
    !(len > FreeSpace(head, tail)) && Wrap(head + 1) != tail
  }

  /** The corrected test is the written one minus exactly the two lengths that overrun: `fs - 1` and `fs`. */
  lemma EnqueueFitsNarrowsAsWritten(head: int, tail: int, len: int)
    requires 0 <= head < QUEUE_SIZE && 0 <= tail < QUEUE_SIZE && len >= 1
    ensures EnqueueFits(head, tail, len)
            <==> EnqueueFitsAsWritten(head, tail, len) && len != FreeSpace(head, tail) - 1 && len != FreeSpace(head, tail)
  {
  }

  /** The head index after an accepted enqueue of `len` bytes. */
  function HeadAfter(head: int, len: int): int
    requires 0 <= head < QUEUE_SIZE && 0 <= len <= QUEUE_SIZE
  {
    Wrap(Wrap(head + 1) + len)
  }

  /** Bytes of the record an output-control command is queued as (`sizeof(struct cmd)` plus four bytes). */
  const OUT_RECORD_LEN: int := 6

  /**
   * As written, with 121 bytes in use (`head` 121, `tail` 0) an output-control
   * record passes the free-space test and brings `head` onto `tail`: the
   * queue then reads as empty and every queued record is lost. The corrected
   * test refuses it.
   */
  lemma EnqueueAsWrittenLosesRecord()
    ensures UsedBytes(121, 0) == 121 && FreeSpace(121, 0) == OUT_RECORD_LEN + 1
    ensures EnqueueFitsAsWritten(121, 0, OUT_RECORD_LEN)
    ensures HeadAfter(121, OUT_RECORD_LEN) == 0
    ensures !EnqueueFits(121, 0, OUT_RECORD_LEN)
  {
  }

  /** The dequeue's start index as written: one past `tail`, never wrapped. */
  function DequeueStartAsWritten(tail: int): int
  {
    tail + 1
  }

  /**
   * Where `head` and `tail` both stand after `n` output-control records have
   * each been enqueued into the empty queue and dequeued again, from `t`.
   */
  function PassThrough(t: int, n: nat): (r: int)
    requires 0 <= t < QUEUE_SIZE
    ensures 0 <= r < QUEUE_SIZE
    decreases n
  {
    if n == 0 then t else PassThrough(HeadAfter(t, OUT_RECORD_LEN), n - 1)
  }

  /** Each record passed through moves both indices on by the record and its gap byte. */
  lemma {:induction false} PassThroughShifts(t: int, n: nat)
    requires 0 <= t < QUEUE_SIZE
    ensures PassThrough(t, n) == (t + 7 * n) % QUEUE_SIZE
    decreases n
  {
    if n > 0 {
      var t' := HeadAfter(t, OUT_RECORD_LEN);
      PassThroughShifts(t', n - 1);
      if t + 7 >= QUEUE_SIZE {
        assert t' + 7 * (n - 1) == t + 7 * n - QUEUE_SIZE;
        DropOneWrap(t + 7 * n);
      } else {
        assert t' + 7 * (n - 1) == t + 7 * n;
      }
    }
  }

  /** Of the first 73 steps of 7 from 0, only the 73rd lands on the last slot. */
  lemma SevenStepsToLastSlot(n: nat)
    requires n <= 73
    ensures (7 * n) % QUEUE_SIZE == QUEUE_SIZE - 1 <==> n == 73
  {
    var x := 7 * n;
    if n == 73 {
      assert x == 3 * QUEUE_SIZE + QUEUE_SIZE - 1;
    } else if x >= 3 * QUEUE_SIZE {
      assert x % QUEUE_SIZE == x - 3 * QUEUE_SIZE;
    } else if x >= 2 * QUEUE_SIZE {
      assert x % QUEUE_SIZE == x - 2 * QUEUE_SIZE;
    } else if x >= QUEUE_SIZE {
      assert x % QUEUE_SIZE == x - QUEUE_SIZE;
    }
  }

  lemma DropOneWrap(x: int)
    requires x >= QUEUE_SIZE
    ensures (x - QUEUE_SIZE) % QUEUE_SIZE == x % QUEUE_SIZE
  {
  }

  /**
   * Seventy-three output-control records passed through the queue one at a
   * time leave `tail` on the last slot, and no fewer do: until then the
   * unwrapped dequeue start never leaves the buffer.
   */
  lemma LastSlotAfterSeventyThree(n: nat)
    requires n <= 73
    ensures PassThrough(0, n) == QUEUE_SIZE - 1 <==> n == 73
  {
    PassThroughShifts(0, n);
    SevenStepsToLastSlot(n);
  }

  /**
   * With `tail` on the last slot, the next record is enqueued from index 0,
   * but the dequeue as written reads its length from index `QUEUE_SIZE`,
   * past the end of the buffer; the corrected start wraps to 0, where the
   * record is.
   */
  lemma DequeueAsWrittenOverruns(ring: seq<byte>, rec: seq<byte>)
    requires |ring| == QUEUE_SIZE && IsRecord(rec) && |rec| == OUT_RECORD_LEN
    ensures EnqueueFits(QUEUE_SIZE - 1, QUEUE_SIZE - 1, |rec|)
    ensures RingWrite(ring, Wrap(QUEUE_SIZE - 1 + 1), rec)[0] == |rec|
    ensures !(0 <= DequeueStartAsWritten(QUEUE_SIZE - 1) < QUEUE_SIZE)
    ensures Wrap(QUEUE_SIZE - 1 + 1) == 0
  {
  }

  method Memcpy(dst: array<byte>, dstOff: int, src: seq<byte>, srcOff: int, n: int)
    requires 0 <= dstOff && 0 <= n && dstOff + n <= dst.Length
    requires 0 <= srcOff && srcOff + n <= |src|
    modifies dst
    ensures forall i :: 0 <= i < dst.Length ==>
              dst[i] == if dstOff <= i < dstOff + n then src[srcOff + i - dstOff] else old(dst[i])
  {
    for k := 0 to n
      invariant forall i :: 0 <= i < dst.Length ==>
                  dst[i] == if dstOff <= i < dstOff + k then src[srcOff + i - dstOff] else old(dst[i])
    {
      dst[dstOff + k] := src[srcOff + k];
    }
  }

  class Queue {
    const buffer: array<byte>
    var head: int
    var tail: int
    /** The stored records, oldest first. */
    ghost var records: seq<seq<byte>>

    ghost predicate Valid()
      reads this, buffer
    {
      buffer.Length == QUEUE_SIZE && RingHolds(buffer[..], head, tail, records)
    }

    constructor ()
      ensures Valid() && fresh(buffer) && records == [] && head == 0 && tail == 0
    {
      buffer := new byte[QUEUE_SIZE](_ => 0);
      head, tail := 0, 0;
      records := [];
    }

    /** Copies `rec` into the ring from `start`, in two pieces when it runs past the physical end. */
    method WriteAt(start: int, rec: seq<byte>) returns (end: int)
      requires buffer.Length == QUEUE_SIZE && 0 <= start < QUEUE_SIZE && |rec| < QUEUE_SIZE
      modifies buffer
      ensures end == Wrap(start + |rec|)
      ensures buffer[..] == RingWrite(old(buffer[..]), start, rec)
    {
      var len := |rec|;
      end := start + len;
      if end >= QUEUE_SIZE {
        end := end % QUEUE_SIZE;
      }
      if start > end {
        Memcpy(buffer, start, rec, 0, QUEUE_SIZE - start);
        Memcpy(buffer, 0, rec, QUEUE_SIZE - start, end);
      } else {
        Memcpy(buffer, start, rec, 0, len);
      }
      assert forall i :: 0 <= i < QUEUE_SIZE ==> buffer[..][i] == RingWrite(old(buffer[..]), start, rec)[i];
    }

    /** Copies `len` ring bytes from `start` into `dst`, in two pieces when they run past the physical end. */
    method ReadAt(dst: array<byte>, start: int, len: int) returns (end: int)
      requires buffer.Length == QUEUE_SIZE && dst != buffer
      requires 0 <= start < QUEUE_SIZE && 0 <= len < QUEUE_SIZE && len <= dst.Length
      modifies dst
      ensures end == Wrap(start + len)
      ensures dst[..len] == Unroll(buffer[..], start, len)
      ensures dst[len..] == old(dst[len..])
    {
      end := start + len;
      if end >= QUEUE_SIZE {
        end := end % QUEUE_SIZE;
      }
      if start > end {
        Memcpy(dst, 0, buffer[..], start, QUEUE_SIZE - start);
        Memcpy(dst, QUEUE_SIZE - start, buffer[..], 0, end);
      } else {
        Memcpy(dst, 0, buffer[..], start, len);
      }
      forall k | 0 <= k < len ensures dst[k] == buffer[Wrap(start + k)] {
        if start > end && k >= QUEUE_SIZE - start {
          assert dst[k] == buffer[..][QUEUE_SIZE - start + k - (QUEUE_SIZE - start) + start - QUEUE_SIZE];
        }
      }
      assert dst[len..] == old(dst[len..]);
    }

    /**
     * `cp_enqueue_command`: appends `rec` at one past `head`, or returns -1
     * and changes nothing when the record and its gap byte do not fit.
     */
    method Enqueue(rec: seq<byte>) returns (ret: int)
      requires Valid() && IsRecord(rec)
      modifies this, buffer
      ensures Valid() && tail == old(tail)
      ensures ret == 0 || ret == -1
      ensures ret == 0 <==> EnqueueFits(old(head), old(tail), |rec|)
      ensures ret == -1 ==> head == old(head) && records == old(records) && buffer[..] == old(buffer[..])
      ensures ret == 0 ==> && records == old(records) + [rec]
                           && head == HeadAfter(old(head), |rec|)
                           && buffer[..] == RingWrite(old(buffer[..]), Wrap(old(head) + 1), rec)
    {
      var fs := tail - head;
      if fs <= 0 {
        fs := fs + QUEUE_SIZE;
      }

      var len := rec[0];
      if len > fs {
        return -1;
      }
      // The gap byte needs room as well: without this test a record of
      // fs - 1 or fs bytes would run onto `tail` (see EnqueueAsWrittenLosesRecord).
      // It also covers the source's `start == tail` refusal, which needs fs == 1.
      if len + 1 >= fs {
        return -1;
      }

      var start := head + 1;
      if start >= QUEUE_SIZE {
        start := 0;
      }

      RingPush(buffer[..], head, tail, records, rec);
      var end := WriteAt(start, rec);
      head := end;
      records := records + [rec];
      return 0;
    }

    /**
     * `cp_dequeue_command`: returns 0 on an empty queue; -1 when the oldest
     * record is longer than `maxlen`; otherwise copies that record into `dst`,
     * returns its length and, unless `readonly`, removes it.
     */
    method Dequeue(readonly: bool, dst: array<byte>, maxlen: int) returns (ret: int)
      requires Valid() && dst != buffer && maxlen <= dst.Length
      modifies this, dst
      ensures Valid() && head == old(head)
      ensures old(records) == [] ==>
                ret == 0 && tail == old(tail) && records == old(records) && dst[..] == old(dst[..])
      ensures old(records) != [] && |old(records)[0]| > maxlen ==>
                ret == -1 && tail == old(tail) && records == old(records) && dst[..] == old(dst[..])
      ensures old(records) != [] && |old(records)[0]| <= maxlen ==>
                && ret == |old(records)[0]|
                && dst[..ret] == old(records)[0]
                && dst[ret..] == old(dst[ret..])
                && (readonly ==> tail == old(tail) && records == old(records))
                && (!readonly ==> tail == HeadAfter(old(tail), ret) && records == old(records)[1..])
    {
      RingEmpty(buffer[..], head, tail, records);
      if head == tail {
        return 0;
      }

      // The source starts at tail + 1 without wrapping (see DequeueAsWrittenOverruns).
      var start := tail + 1;
      if start >= QUEUE_SIZE {
        start := 0;
      }
      RingFront(buffer[..], head, tail, records);
      var len := buffer[start];

      if len > maxlen {
        return -1;
      }

      ret := TakeFront(readonly, dst, start, len);
    }

    /** Copies the oldest record, which starts at `start`, into `dst`; without `readonly` also removes it. */
    method TakeFront(readonly: bool, dst: array<byte>, start: int, len: int) returns (ret: int)
      requires Valid() && dst != buffer && records != []
      requires start == Wrap(tail + 1) && len == |records[0]| && len <= dst.Length
      modifies this, dst
      ensures Valid() && head == old(head)
      ensures ret == len && dst[..ret] == old(records)[0] && dst[ret..] == old(dst[ret..])
      ensures readonly ==> tail == old(tail) && records == old(records)
      ensures !readonly ==> tail == HeadAfter(old(tail), ret) && records == old(records)[1..]
    {
      RingFront(buffer[..], head, tail, records);
      ghost var ring := buffer[..];
      var end := ReadAt(dst, start, len);
      assert buffer[..] == ring;
      if !readonly {
        tail := end;
        records := records[1..];
      }
      return len;
    }
  }

  /** An empty queue whose indices sit 7 bytes before the physical end: a filler record went in and out. */
  method EmptyNearEnd() returns (q: Queue)
    ensures fresh(q) && fresh(q.buffer) && q.Valid()
    ensures q.records == [] && q.head == q.tail == QUEUE_SIZE - 7
  {
    q := new Queue();
    var filler := [QUEUE_SIZE - 8] + Zeros(QUEUE_SIZE - 9);
    var r := q.Enqueue(filler);
    assert q.records == [filler] && q.head == QUEUE_SIZE - 7;
    var scratch := new byte[QUEUE_SIZE](_ => 0);
    var n := q.Dequeue(false, scratch, QUEUE_SIZE);
    assert q.records == [] && q.tail == QUEUE_SIZE - 7;
  }

  /**
   * Records come back byte-identical and in order, also when they straddle
   * the physical end of the ring (any record `a` longer than 6 bytes does,
   * from `EmptyNearEnd`).
   */
  method RoundTripAcrossEnd(a: seq<byte>, b: seq<byte>) returns (x: seq<byte>, y: seq<byte>, last: int)
    requires IsRecord(a) && IsRecord(b) && |a| + |b| + 2 < QUEUE_SIZE - 1
    ensures x == a && y == b && last == 0
  {
    var q := EmptyNearEnd();
    var r := q.Enqueue(a);
    r := q.Enqueue(b);
    assert q.records == [a, b];
    var scratch := new byte[QUEUE_SIZE](_ => 0);
    var n := q.Dequeue(false, scratch, QUEUE_SIZE);
    x := scratch[..n];
    n := q.Dequeue(false, scratch, QUEUE_SIZE);
    y := scratch[..n];
    last := q.Dequeue(false, scratch, QUEUE_SIZE);
  }
}
