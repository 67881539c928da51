/** Where the inflater finds the bytes that matches copy: the dictionary ring, or, when
    there is none, the output already written. */
module History {
  import opened Bits
  import Arithmetic

  /** The slot `k` places behind `idx` in a ring of `size` slots. */
  function Behind(idx: nat, k: nat, size: nat): nat
    requires idx < size && k <= size
  {
    if k <= idx then idx - k else idx - k + size
  }

  /** The dictionary ring (`dict_ring`, `dict_size`, `dict_idx`). */
  class DictRing {
    const ring: array<byte>
    const size: nat
    var idx: nat

    constructor (ring: array<byte>)
      ensures this.ring == ring && size == ring.Length && idx == 0 && (size > 0 ==> Holds(ring[..]))
    {
      this.ring := ring;
      size, idx := ring.Length, 0;
    }

    ghost predicate Valid()
      reads this
    {
      0 < size == ring.Length && idx < size
    }

    /** Going backwards from the index, the ring holds the last `size` bytes of `hist`. */
    ghost predicate Holds(hist: seq<byte>)
      reads this, ring
    {
      && Valid() && size <= |hist|
      && forall k | 1 <= k <= size :: ring[Behind(idx, k, size)] == hist[|hist| - k]
    }

    method Put(c: byte, ghost hist: seq<byte>)
      requires Holds(hist)
      modifies this`idx, ring
      ensures Holds(hist + [c]) && idx == if old(idx) + 1 == size then 0 else old(idx) + 1
    {
      hide Behind;
      ghost var before := ring[..];
      BehindMoves(idx, size);
      ring[idx] := c;
      idx := idx + 1;
      if idx == size {
        idx := 0;
      }
      forall k | 1 <= k <= size
        ensures ring[Behind(idx, k, size)] == (hist + [c])[|hist + [c]| - k]
      {
        if k > 1 {
          assert before[Behind(old(idx), k - 1, size)] == hist[|hist| - (k - 1)];
        }
      }
    }
  }

  /** After the index moves on by one, every slot is one place further behind it. */
  lemma BehindMoves(idx: nat, size: nat)
    requires idx < size
    ensures var next := if idx + 1 == size then 0 else idx + 1;
      && Behind(next, 1, size) == idx
      && forall k | 2 <= k <= size :: Behind(next, k, size) == Behind(idx, k - 1, size) != idx
    ensures forall k | 1 <= k <= size :: Behind(idx, k, size) < size
  {}

  /** ... so a reader `k` places behind keeps its distance by moving on too. */
  lemma BehindFollows(idx: nat, k: nat, size: nat)
    requires idx < size && 1 <= k <= size
    ensures var next := if idx + 1 == size then 0 else idx + 1;
      var slot := Behind(idx, k, size);
      slot < size && Behind(next, k, size) == if slot + 1 == size then 0 else slot + 1
  {}

  /** The output file and its buffer (`tarGzIO.output`, `output_buffer`, `output_position`). */
  class GzOutput {
    var file: seq<byte>
    const buffer: array<byte>
    var position: nat

    constructor (size: nat)
      ensures file == [] && position == 0 && buffer.Length == size && fresh(buffer)
    {
      buffer := new byte[size];
      file, position := [], 0;
    }

    /** Everything output so far: what was written to the file, then what is buffered. */
    ghost function Written(): seq<byte>
      requires position <= buffer.Length
      reads this, buffer
    {
      file + buffer[..position]
    }

    /** The buffer has room, and the file was written a full buffer at a time. */
    ghost predicate Whole()
      reads this
    {
      position < buffer.Length && |file| % buffer.Length == 0
    }

    /** gzReadDestByteFS: the byte `-offset` places back in the output. */
    method ReadDestByte(offset: int) returns (out: byte)
      requires position <= buffer.Length && 1 <= -offset <= |file| + position
      ensures out == Written()[|Written()| + offset]
    {
      var delta := position + offset;
      if delta >= 0 {
        out := buffer[delta];
      } else {
        out := file[|file| + delta];
      }
    }

    /** Counts the byte just put at `position`; a full buffer goes to the file. */
    method Advance()
      requires Whole()
      modifies this`file, this`position
      ensures Whole()
      ensures Written() == old(Written()) + [old(buffer[position])]
      ensures file == old(file) + if position == 0 then buffer[..] else []
    {
      position := position + 1;
      if position == buffer.Length {
        Arithmetic.AfterMultiple(|file|, buffer.Length, buffer.Length);
        file := file + buffer[..];
        position := 0;
      }
    }

    /** The file has all output but what is left in the buffer. */
    lemma FileIs()
      requires Whole()
      ensures var out := Written(); file == out[..|out| - |out| % buffer.Length]
    {
      var out := Written();
      if |file| == 0 {
        Arithmetic.Remainder(|out|, 0, position, buffer.Length);
      } else {
        Arithmetic.AfterMultiple(|file|, position, buffer.Length);
      }
      assert |out| == |file| + position;
    }

    /** Writes out what is left in the buffer. */
    method Flush()
      requires position <= buffer.Length
      modifies this`file, this`position
      ensures position == 0 && file == Written() == old(Written())
    {
      if position > 0 {
        file := file + buffer[..position];
        position := 0;
      }
    }
  }
}
