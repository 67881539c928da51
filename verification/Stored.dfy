/** Stored blocks (RFC 1951, section 3.2.4) of any content. */
module Stored {
  import opened Bits
  import opened FixedTrees
  import opened Huffman
  import opened Inflate
  import opened Tinflate

  /** The length of the data, low byte first, its complement, and the data. */
  function StoredBytes(d: seq<byte>): seq<byte>
    requires |d| <= 0xFFFF
  {
    [|d| % 256, |d| / 256, 255 - |d| % 256, 255 - |d| / 256] + d
  }

  /** Four bytes read as two 16-bit numbers. */
  lemma TwoNumbers(B: Bits, p: nat, a: byte, b: byte, c: byte, d: byte)
    requires At(B, p, BytesBits([a, b, c, d]))
    ensures Inflate.ReadBits(B, p, 16) == Got(LittleEndian16(a, b), p + 16)
    ensures Inflate.ReadBits(B, p + 16, 16) == Got(LittleEndian16(c, d), p + 32)
    ensures p + 32 <= |B|
  {
    hide ToBits, Inflate.ReadBits, LittleEndian16;
    assert [a, b, c, d][..3] == [a, b, c] && [a, b, c][..2] == [a, b] && [a, b][..1] == [a] && [a][..0] == [];
    AtConcat(B, p, BytesBits([a, b, c]), ToBits(d, 8));
    AtConcat(B, p, BytesBits([a, b]), ToBits(c, 8));
    AtConcat(B, p, BytesBits([a]), ToBits(b, 8));
    assert BytesBits([a]) == ToBits(a, 8);
    hide BytesBits, At;
    TwoBytesAt(B, p, a, b);
    TwoBytesAt(B, p + 16, c, d);
  }

  /** The state after the data of a stored block. */
  function AfterData(s: State, d: seq<byte>): State {
    s.(pos := s.pos + 8 * |d|, btype := if s.bfinal then s.btype else -1, curlen := 0, hist := s.hist + d)
  }

  /** The machine ends in `t` if the block is the last, and else goes on from there. */
  ghost predicate Ends(B: Bits, s: State, t: State, w: Window, final: bool)
    requires WellFormed(s, w) && s.pos <= |B|
  {
    if final then All(B, s, w) == (Done, t)
    else WellFormed(t, w) && t.pos <= |B| && t.btype == -1 && All(B, s, w) == All(B, t, w)
  }

  /** The data of a block follow. */
  lemma {:induction false} DataRuns(B: Bits, s: State, w: Window, d: seq<byte>)
    requires WellFormed(s, w) && s.btype == 0 && s.curlen == |d| + 1 && At(B, s.pos, BytesBits(d))
    ensures s.pos <= |B| && Ends(B, s, AfterData(s, d), w, s.bfinal)
    decreases |d|
  {
    hide ToBits, Lengths, Inflate.ReadBits, BytesBits;
    assert s.pos <= |B|;
    hide At;
    MicroProgress(B, s, w);
    if d == [] {
      assert s.hist + [] == s.hist;
    } else {
      FirstByte(d);
      AtConcat(B, s.pos, ToBits(d[0], 8), BytesBits(d[1..]));
      ByteRead(B, s.pos, d[0]);
      var t := s.(pos := s.pos + 8, curlen := |d|, hist := s.hist + [d[0]]);
      DataRuns(B, t, w, d[1..]);
      Assoc(s.hist, [d[0]], d[1..]);
    }
  }

  lemma FirstByte(d: seq<byte>)
    requires d != []
    ensures d == [d[0]] + d[1..] && BytesBits(d) == ToBits(d[0], 8) + BytesBits(d[1..])
  {
    hide *;
    assert d == [d[0]] + d[1..];
    BytesBitsConcat([d[0]], d[1..]);
    ByteAlone(d[0]);
  }

  lemma ByteRead(B: Bits, p: nat, x: byte)
    requires At(B, p, ToBits(x, 8))
    ensures Inflate.ReadBits(B, p, 8) == Got(x, p + 8)
  {
    hide ToBits, FromBits, Pow2;
    PowersUsed();
    BitsRead(B, p, x, 8);
  }

  lemma LengthsStand(B: Bits, p: nat, d: seq<byte>)
    requires |d| <= 0xFFFF && At(B, p, BytesBits(StoredBytes(d)))
    ensures Inflate.ReadBits(B, p, 16) == Got(|d|, p + 16)
    ensures Inflate.ReadBits(B, p + 16, 16) == Got(0xFFFF - |d|, p + 32)
    ensures p + 32 <= |B| && At(B, p + 32, BytesBits(d))
  {
    hide *;
    var low, high, w := Halves(|d|);
    StoredBytesAre(d, low, high);
    BytesBitsConcat(w, d);
    AtConcat(B, p, BytesBits(w), BytesBits(d));
    TwoNumbers(B, p, low, high, 255 - low, 255 - high);
  }

  lemma Halves(n: nat) returns (low: byte, high: byte, w: seq<byte>)
    requires n <= 0xFFFF
    ensures low == n % 256 && high == n / 256 && w == [low, high, 255 - low, 255 - high] && |w| == 4
    ensures LittleEndian16(low, high) == n && LittleEndian16(255 - low, 255 - high) == 0xFFFF - n
  {
    low, high := n % 256, n / 256;
    w := [low, high, 255 - low, 255 - high];
  }

  lemma StoredBytesAre(d: seq<byte>, low: byte, high: byte)
    requires |d| <= 0xFFFF && low == |d| % 256 && high == |d| / 256
    ensures StoredBytes(d) == [low, high, 255 - low, 255 - high] + d
  {}

  lemma LengthsGive(B: Bits, s: State, len: nat)
    requires s.curlen == 0 && len <= 0xFFFF && Inflate.ReadBits(B, Align(s.pos), 16) == Got(len, Align(s.pos) + 16)
    requires Inflate.ReadBits(B, Align(s.pos) + 16, 16) == Got(0xFFFF - len, Align(s.pos) + 32)
    ensures StoredStep(B, s) == StoredByte(B, s.(pos := Align(s.pos) + 32, curlen := len + 1))
  {
    hide Align, Inflate.ReadBits, StoredByte;
  }

  /** The lengths are read, and the data begin. */
  lemma LengthsRead(B: Bits, s: State, w: Window, d: seq<byte>)
    requires WellFormed(s, w) && s.btype == 0 && s.curlen == 0 && s.pos <= |B|
    requires |d| <= 0xFFFF && At(B, Align(s.pos), BytesBits(StoredBytes(d)))
    ensures var t := s.(pos := Align(s.pos) + 32, curlen := |d| + 1);
      WellFormed(t, w) && At(B, t.pos, BytesBits(d)) && Micro(B, s, w) == Micro(B, t, w)
  {
    hide *;
    LengthsStand(B, Align(s.pos), d);
    LengthsGive(B, s, |d|);
    StoredMicro(B, s, w);
    AnyLength(s, w, Align(s.pos) + 32, |d| + 1);
    StoredMicro(B, s.(pos := Align(s.pos) + 32, curlen := |d| + 1), w);
  }

  lemma AnyLength(s: State, w: Window, pos: nat, n: nat)
    requires WellFormed(s, w) && s.btype == 0
    ensures WellFormed(s.(pos := pos, curlen := n), w)
  {
    hide Lengths;
  }

  lemma StoredMicro(B: Bits, s: State, w: Window)
    requires WellFormed(s, w) && s.btype == 0
    ensures Micro(B, s, w) == StoredStep(B, s)
    ensures s.curlen > 0 ==> StoredStep(B, s) == StoredByte(B, s)
  {
    hide StoredByte, Inflate.ReadBits, Align;
  }

  lemma SameStep(B: Bits, s: State, t: State, w: Window)
    requires WellFormed(s, w) && s.pos <= |B| && WellFormed(t, w) && t.pos <= |B| && Micro(B, s, w) == Micro(B, t, w)
    ensures All(B, s, w) == All(B, t, w)
  {
    hide Micro, Lengths;
    MicroProgress(B, s, w);
    MicroProgress(B, t, w);
  }

  /** The header of a stored block. */
  lemma StoredOpens(B: Bits, s: State, w: Window, final: bool)
    requires WellFormed(s, w) && s.btype == -1 && At(B, s.pos, [final, false, false])
    ensures var t := s.(pos := s.pos + 3, bfinal := final, btype := 0);
      WellFormed(t, w) && t.pos <= |B| && All(B, s, w) == All(B, t, w)
  {
    hide FixedLit, FixedDist, DynamicTrees, Lengths, KraftSum;
    var h := B[s.pos..s.pos + 3];
    assert h == [final, false, false] && h[0] == B[s.pos];
    assert B[s.pos + 1..s.pos + 3] == h[1..] == [false, false] && [false, false][1..] == [false] && [false][1..] == [];
    assert FromBits([false, false]) == 0;
    MicroProgress(B, s, w);
  }

  /** Whatever its data, a stored block puts out just these, and inflation goes on behind them. */
  lemma StoredRuns(B: Bits, s: State, w: Window, final: bool, d: seq<byte>) returns (t: State)
    requires WellFormed(s, w) && s.btype == -1 && |d| <= 0xFFFF
    requires At(B, s.pos, [final, false, false]) && At(B, Align(s.pos + 3), BytesBits(StoredBytes(d)))
    ensures s.pos <= |B| && Ends(B, s, t, w, final)
    ensures t == s.(pos := Align(s.pos + 3) + 32 + 8 * |d|, bfinal := final, btype := if final then 0 else -1,
                    hist := s.hist + d)
  {
    hide All, Align, BytesBits, Lengths, Micro, StoredBytes;
    assert s.pos <= |B|;
    hide At;
    StoredOpens(B, s, w, final);
    var s1 := s.(pos := s.pos + 3, bfinal := final, btype := 0);
    LengthsRead(B, s1, w, d);
    var s2 := s1.(pos := Align(s1.pos) + 32, curlen := |d| + 1);
    DataRuns(B, s2, w, d);
    SameStep(B, s1, s2, w);
    t := AfterData(s2, d);
  }
}
