/** The circular scrollback buffer of a detachable PTY session (internal/grpc/ringbuf.go). */
module RingBuffers {
  import opened Bytes

  /** Scrollback capacity of a session: 256 KiB. */
  const DETACHABLE_RING_BUF_SIZE: nat := 256 * 1024

  /** The array index i positions past the start of a ring of n slots, for less than two turns. */
  function Slot(i: nat, n: nat): (r: nat)
    requires i < 2 * n
    ensures r < n
  {
    if i < n then i else i - n
  }

  function Remainder(i: nat, n: nat): (r: nat)
    requires n > 0
    ensures r < n
  {
    i % n
  }

  /** The source computes slots as remainders. */
  lemma SlotIsRemainder(i: nat, n: nat)
    requires i < 2 * n
    ensures Slot(i, n) == Remainder(i, n)
  {
    assert i / n == if i < n then 0 else 1;
  }

  /** The used bytes of ring, oldest first, where the oldest is at head. */
  function Contents(ring: seq<byte>, head: nat, used: nat): (r: seq<byte>)
    requires head <= |ring| && used <= |ring|
    ensures |r| == used
  {
    seq(used, i requires 0 <= i < used => ring[Slot(head + i, |ring|)])
  }

  lemma ContentsElements(ring: seq<byte>, head: nat, used: nat)
    requires head <= |ring| && used <= |ring|
    ensures forall i | 0 <= i < used :: Contents(ring, head, used)[i] == ring[Slot(head + i, |ring|)]
  {
  }

  /** The buffer keeps the last |ring| bytes of h, and only those. */
  ghost predicate Stores(ring: seq<byte>, head: nat, used: nat, h: seq<byte>) {
    && (if |ring| == 0 then head == 0 else head < |ring|)
    && used <= |ring|
    && Contents(ring, head, used) == LastN(h, |ring|)
  }

  lemma StoreIntoFreeSlot(ring: seq<byte>, head: nat, used: nat, h: seq<byte>, b: byte)
    requires |ring| > 0 && Stores(ring, head, used, h) && used < |ring|
    ensures Stores(ring[Slot(head + used, |ring|) := b], head, used + 1, h + [b])
  {
    var ring' := ring[Slot(head + used, |ring|) := b];
    ContentsElements(ring', head, used + 1);
    ContentsElements(ring, head, used);
    assert Contents(ring', head, used + 1) == Contents(ring, head, used) + [b];
    LastNAbsorbs(h, [b], |ring|);
  }

  lemma StoreOverOldest(ring: seq<byte>, head: nat, used: nat, h: seq<byte>, b: byte)
    requires |ring| > 0 && Stores(ring, head, used, h) && used == |ring|
    ensures Stores(ring[Slot(head + used, |ring|) := b], Slot(head + 1, |ring|), used, h + [b])
  {
    var ring' := ring[Slot(head + used, |ring|) := b];
    ContentsElements(ring', Slot(head + 1, |ring|), used);
    ContentsElements(ring, head, used);
    assert Contents(ring', Slot(head + 1, |ring|), used) == Contents(ring, head, used)[1..] + [b];
    LastNAbsorbs(h, [b], |ring|);
  }

  /** Storing one byte: into the slot after the newest, which is the oldest one's once there is no free slot. */
  lemma StoreByte(ring: seq<byte>, cap: nat, head: nat, used: nat, h: seq<byte>, b: byte)
    requires |ring| == cap && head < cap && used <= cap && Stores(ring, head, used, h)
    ensures Stores(ring[Remainder(head + used, cap) := b],
                   if used == cap then Remainder(head + 1, cap) else head,
                   if used == cap then used else used + 1,
                   h + [b])
  {
    SlotIsRemainder(head + used, cap);
    SlotIsRemainder(head + 1, cap);
    hide Remainder;
    if used == cap {
      StoreOverOldest(ring, head, used, h, b);
    } else {
      StoreIntoFreeSlot(ring, head, used, h, b);
    }
  }

  lemma ContentsAfter(ring: seq<byte>, head: nat, used: nat, skip: nat)
    requires head < |ring| && skip <= used <= |ring|
    ensures Contents(ring, Slot(head + skip, |ring|), used - skip) == Contents(ring, head, used)[skip..]
  {
    var rest := Contents(ring, Slot(head + skip, |ring|), used - skip);
    forall i | 0 <= i < used - skip
      ensures rest[i] == Contents(ring, head, used)[skip + i]
    {
      assert Slot(Slot(head + skip, |ring|) + i, |ring|) == Slot(head + (skip + i), |ring|);
    }
  }

  /** The stored bytes after skip, with as many left as were written since the mark, or all. */
  lemma ContentsSinceMark(ring: seq<byte>, cap: nat, head: nat, used: nat, h: seq<byte>, mark: nat, k: nat, skip: nat)
    requires |ring| == cap && 0 < used <= cap && Stores(ring, head, used, h) && mark < |h|
    requires k + skip == used && k == if |h| - mark > used then used else |h| - mark
    ensures Contents(ring, Remainder(head + skip, cap), k) == LastN(h[mark..], cap)
  {
    SlotIsRemainder(head + skip, cap);
    hide Contents, LastN, Remainder;
    var stored := Contents(ring, head, used);
    assert LastN(h[mark..], |ring|) == stored[skip..] by {
      LastNAfter(h, mark, |ring|);
      LastNIs(stored, |h| - mark, skip);
    }
    ContentsAfter(ring, head, used, skip);
  }

  lemma NothingSinceMark(ring: seq<byte>, cap: nat, head: nat, used: nat, h: seq<byte>, mark: nat)
    requires |ring| == cap && Stores(ring, head, used, h) && mark <= |h|
    requires used == 0 || mark == |h|
    ensures LastN(h[mark..], cap) == []
  {
    LastNAfter(h, mark, cap);
  }

  lemma LastNIs(s: seq<byte>, n: nat, skip: nat)
    requires skip == if |s| <= n then 0 else |s| - n
    ensures LastN(s, n) == s[skip..]
  {
  }

  lemma StoreWholeTail(ring: seq<byte>, h: seq<byte>, data: seq<byte>)
    requires |ring| <= |data| && ring == data[|data| - |ring|..]
    ensures Stores(ring, 0, |ring|, h + data)
  {
    ContentsElements(ring, 0, |ring|);
    assert (h + data)[|h + data| - |ring|..] == ring == Contents(ring, 0, |ring|);
  }

  lemma NextPrefix(before: seq<byte>, data: seq<byte>, k: nat)
    requires k < |data|
    ensures before + data[..k + 1] == before + data[..k] + [data[k]]
  {
  }

  class RingBuffer {
    const buf: array<byte>
    const cap: nat
    var head: nat      // index of the oldest byte
    var used: nat      // number of bytes stored
    var writePos: nat  // count of bytes ever written
    var markPos: nat   // writePos at the last Mark

    /** Every byte ever written: the unbounded buffer this one approximates. */
    ghost var history: seq<byte>

    ghost predicate Valid()
      reads this, buf
    {
      && buf.Length == cap
      && writePos == |history|
      && markPos <= writePos
      && Stores(buf[..], head, used, history)
    }

    constructor (capacity: nat)
      ensures Valid() && fresh(buf)
      ensures cap == capacity && history == [] && markPos == 0
    {
      buf := new byte[capacity];
      cap := capacity;
      head, used, writePos, markPos := 0, 0, 0, 0;
      history := [];
    }

    method Write(data: seq<byte>)
      requires Valid()
      modifies this, buf
      ensures Valid()
      ensures history == old(history) + data && markPos == old(markPos)
    {
      if |data| == 0 {
        assert history + data == history;
        return;
      }
      writePos := writePos + |data|;
      history := history + data;
      if |data| >= cap {
        forall i | 0 <= i < cap {
          buf[i] := data[|data| - cap + i];
        }
        head := 0;
        used := cap;
        StoreWholeTail(buf[..], old(history), data);
        return;
      }
      WriteBytes(old(history), data);
    }

    /** The byte loop of Write, for data that fits. */
    method WriteBytes(ghost before: seq<byte>, data: seq<byte>)
      requires |data| < cap == buf.Length && Stores(buf[..], head, used, before)
      modifies this`head, this`used, buf
      ensures Stores(buf[..], head, used, before + data)
    {
      assert before + data[..0] == before;
      hide *;
      for k := 0 to |data|
        invariant Stores(buf[..], head, used, before + data[..k])
      {
        WriteByte(before + data[..k], data[k]);
        NextPrefix(before, data, k);
      }
      assert data[..|data|] == data;
    }

    method Put(idx: nat, b: byte)
      requires idx < buf.Length
      modifies buf
      ensures buf[..] == old(buf[..])[idx := b]
    {
      buf[idx] := b;
    }

    /** One turn of the loop: overwrite the oldest byte once there is no free slot. */
    method WriteByte(ghost h: seq<byte>, b: byte)
      requires 0 < cap == buf.Length && Stores(buf[..], head, used, h)
      modifies this`head, this`used, buf
      ensures Stores(buf[..], head, used, h + [b])
    {
      StoreByte(buf[..], cap, head, used, h, b);
      hide *;
      var idx := Remainder(head + used, cap);
      Put(idx, b);
      if used == cap {
        head := Remainder(head + 1, cap);
      } else {
        used := used + 1;
      }
    }

    /** The two-piece copy both snapshots end with. */
    method CopyOut(start: nat, n: nat, ghost ring: seq<byte>) returns (out: seq<byte>)
      requires start <= cap && n <= cap == buf.Length && ring == buf[..]
      ensures out == Contents(ring, start, n)
    {
      ContentsElements(ring, start, n);
      hide Contents;
      if start + n <= cap {
        out := buf[start..start + n];
      } else {
        var first := cap - start;
        out := buf[start..] + buf[..n - first];
      }
    }

    method Snapshot() returns (out: seq<byte>)
      requires Valid()
      ensures out == LastN(history, cap)
    {
      if used == 0 {
        return [];
      }
      out := CopyOut(head, used, buf[..]);
    }

    method Mark()
      requires Valid()
      modifies this`markPos
      ensures Valid() && markPos == |history|
    {
      markPos := writePos;
    }

    method SnapshotSinceMark() returns (out: seq<byte>)
      requires Valid()
      ensures out == LastN(history[markPos..], cap)
    {
      ghost var ring, h := buf[..], history;
      assert |ring| == buf.Length == cap && Stores(ring, head, used, h) && used <= cap && markPos <= |h| == writePos;
      hide *;
      if used == 0 {
        NothingSinceMark(ring, cap, head, used, h, markPos);
        return [];
      }
      var bytesAfterMark: int := writePos - markPos;
      if bytesAfterMark <= 0 {
        NothingSinceMark(ring, cap, head, used, h, markPos);
        return [];
      }
      if bytesAfterMark > used {
        bytesAfterMark := used;
      }
      var skip := used - bytesAfterMark;
      ContentsSinceMark(ring, cap, head, used, h, markPos, bytesAfterMark, skip);
      out := CopyOut(Remainder(head + skip, cap), bytesAfterMark, ring);
    }
  }
}
