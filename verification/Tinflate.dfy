/** The inflater (`struct TINF_DATA`), which produces one byte at a time and keeps all it
    needs to go on in its fields. */
module Tinflate {
  import opened Bits
  import opened Tables
  import opened Huffman
  import opened FixedTrees
  import opened Inflate
  import opened History

  const TINF_DICT_ERROR := -5

  /** The return code for a status that the code knows. */
  function StatusCode(st: Status): int {
    match st
    case Ok => 0
    case Done => 1
    case DictError => TINF_DICT_ERROR
    case _ => TINF_DATA_ERROR
  }

  class TinfData {
    /** The compressed stream. */
    const source: seq<byte>
    var srcPos: nat
    var readSourceErrors: nat
    var tag: nat
    var bitcount: nat

    const ltree: TinfTree
    const dtree: TinfTree

    /** Where output goes; a caller points `dest` into its buffer before each call. */
    var dest: array<byte>
    var destPos: nat
    var destRemaining: nat
    var btype: int
    var bfinal: nat
    var curlen: nat
    var lzOff: int
    /** Copies are read from the ring if it has any slots (`dict_ring` is not NULL), else through `output` (the
        readDestByte callback) if there is one, else from `dest`. */
    const ring: DictRing
    const output: GzOutput?

    /** The structure before anything is read. */
    constructor (source: seq<byte>, ring: DictRing, output: GzOutput?, dest: array<byte>)
      ensures this.source == source && this.ring == ring && this.output == output && this.dest == dest
      ensures destPos == 0 && srcPos == 0 && readSourceErrors == 0
      ensures TreesApart() && fresh(ltree) && fresh(dtree)
      ensures fresh(ltree.table) && fresh(ltree.trans) && fresh(dtree.table) && fresh(dtree.trans)
    {
      this.source, this.ring, this.output, this.dest := source, ring, output, dest;
      srcPos, readSourceErrors, tag, bitcount := 0, 0, 0, 0;
      destPos, destRemaining := 0, 0;
      btype, bfinal, curlen, lzOff := 0, 0, 0, 0;
      ltree := new TinfTree();
      dtree := new TinfTree();
    }

    /** uzlib_uncompress_init: a new stream starts at the next byte of the source. */
    method UncompressInit()
      requires srcPos <= |source|
      modifies this`readSourceErrors, this`bitcount, this`btype, this`bfinal, this`curlen, ring`idx
      ensures Positioned(8 * srcPos) && btype == -1 && curlen == 0 && ring.idx == 0
    {
      bitcount, bfinal, btype := 0, 0, -1;
      ring.idx := 0;
      curlen, readSourceErrors := 0, 0;
      AtByteBoundary();
    }

    ghost function W(): Window {
      if ring.size > 0 then Ring(ring.size) else if output != null then File else Memory
    }

    /** The fields stand for the abstract state `s` ... */
    ghost predicate Rep(s: State)
      reads this`srcPos, this`readSourceErrors, this`tag, this`bitcount, this`btype, this`bfinal, this`curlen,
            this`lzOff, this`dest, this`destPos, ring, ring.ring, output, dest,
            ltree, ltree.table, ltree.trans, dtree, dtree.table, dtree.trans
    {
      WellFormed(s, W()) && Positioned(s.pos) && TreesFor(s) && Flags(s) && Past(s.hist) && MatchAt(s)
    }

    /** ... in their place in the source, ... */
    ghost predicate Positioned(pos: nat)
      reads this`srcPos, this`bitcount, this`tag, this`readSourceErrors
    {
      Reading() && readSourceErrors == 0 && P() == pos
    }

    /** ... in the tables of the current block, ... */
    ghost predicate TreesFor(s: State)
      reads ltree, ltree.table, ltree.trans, dtree, dtree.table, dtree.trans
    {
      TreesApart() && (s.btype in {1, 2} ==> ltree.Codes(s.lit) && dtree.Codes(s.dst))
    }

    /** ... in how far the current block and match have got, ... */
    ghost predicate Flags(s: State)
      reads this`btype, this`bfinal, this`curlen, this`bitcount
    {
      && (s.btype != -1 ==> btype == s.btype && bfinal == Bit(s.bfinal))
      && curlen == s.curlen
      && (s.btype == 0 && s.curlen > 0 ==> bitcount == 0)
    }

    /** ... in the output that matches copy from, ... */
    ghost predicate Past(hist: seq<byte>)
      reads this`dest, this`destPos, ring, ring.ring, output, dest
    {
      && destPos <= dest.Length
      && (if ring.size > 0 then ring.ring != dest && ring.Holds(hist)
          else
            && (output != null ==> dest == output.buffer)
            && hist == (if output != null then output.file else []) + dest[..destPos])
    }

    /** ... and in where the current match goes on. */
    ghost predicate MatchAt(s: State)
      reads this`lzOff, ring
    {
      s.btype in {1, 2} && s.curlen > 0 ==>
        if ring.size == 0 then lzOff == 0 - s.dist
        else ring.Valid() && s.dist <= ring.size && lzOff == Behind(ring.idx, s.dist, ring.size)
    }

    ghost predicate TreesApart() {
      && ltree.Valid() && dtree.Valid()
      && ltree.table != dtree.table && ltree.table != dtree.trans
      && ltree.trans != dtree.table && ltree.trans != dtree.trans
    }

    /** All bits of the source. */
    ghost function Src(): Bits {
      BytesBits(source)
    }

    /** The position of the next bit. */
    ghost function P(): nat
      reads this`srcPos, this`bitcount
    {
      if 8 * srcPos >= bitcount then 8 * srcPos - bitcount else 0
    }

    /** Until a read fails, the tag holds the bits left of the last byte read. */
    ghost predicate Reading()
      reads this`srcPos, this`bitcount, this`tag, this`readSourceErrors
    {
      && srcPos <= |source| && bitcount <= 7
      && (readSourceErrors == 0 ==> 8 * srcPos >= bitcount && At(Src(), P(), ToBits(tag, bitcount)))
    }

    method GetByte() returns (b: byte)
      requires srcPos <= |source|
      modifies this`srcPos, this`readSourceErrors
      ensures srcPos <= |source| && readSourceErrors >= old(readSourceErrors)
      ensures old(srcPos) < |source| ==>
        b == source[old(srcPos)] && srcPos == old(srcPos) + 1 && readSourceErrors == old(readSourceErrors)
      ensures old(srcPos) == |source| ==> srcPos == old(srcPos) && readSourceErrors > old(readSourceErrors)
    {
      if srcPos < |source| {
        b := source[srcPos];
        srcPos := srcPos + 1;
      } else {
        readSourceErrors := readSourceErrors + 1;
        b := *;
      }
    }

    static lemma NoBits(v: nat)
      ensures ToBits(v, 0) == []
    {}

    static lemma FirstBit(B: Bits, p: nat, v: nat, n: nat)
      requires n > 0 && At(B, p, ToBits(v, n))
      ensures p < |B| && B[p] == (v % 2 == 1) && At(B, p + 1, ToBits(v / 2, n - 1))
    {
      AtConcat(B, p, [v % 2 == 1], ToBits(v / 2, n - 1));
      AtBit(B, p, [v % 2 == 1], 0);
    }

    method GetBit() returns (bit: nat)
      requires Reading()
      modifies this`srcPos, this`readSourceErrors, this`tag, this`bitcount
      ensures Reading() && bit <= 1 && readSourceErrors >= old(readSourceErrors)
      ensures old(readSourceErrors) == 0 && old(P()) < |Src()| ==>
        readSourceErrors == 0 && P() == old(P()) + 1 && bit == Bit(Src()[old(P())])
      ensures old(P()) >= |Src()| ==> readSourceErrors > 0
    {
      hide BytesBits, ToBits;
      NoBits(tag);
      if bitcount == 0 {
        if srcPos < |source| { BytesBitsAt(source, srcPos); }
        tag := GetByte();
        bitcount := 8;
      }
      if readSourceErrors == 0 { FirstBit(Src(), P(), tag, bitcount); }
      bitcount := bitcount - 1;
      bit := tag % 2;
      tag := tag / 2;
    }

    /** Reads `num` bits, least significant first, and adds `base`. */
    method ReadBits(num: nat, base: nat) returns (r: nat)
      requires Reading()
      modifies this`srcPos, this`readSourceErrors, this`tag, this`bitcount
      ensures Reading() && base <= r < base + Pow2(num) && readSourceErrors >= old(readSourceErrors)
      ensures old(readSourceErrors) == 0 ==>
        match Inflate.ReadBits(Src(), old(P()), num)
        case Starved => readSourceErrors > 0
        case Got(v, q) => readSourceErrors == 0 && r == v + base && P() == q
    {
      ghost var clean := readSourceErrors == 0;
      ghost var p: nat := P();
      NoBitsRead(Src(), p);
      assert clean ==> p <= |Src()|;
      hide *;
      var val: nat := 0;
      if num != 0 {
        var limit, mask := Pow2(num), 1;
        ghost var i: nat := 0;
        Pow2Order(0, num);
        while mask < limit
          invariant Reading() && i <= num && mask == Pow2(i) && val < Pow2(i) && (mask < limit <==> i < num)
          invariant readSourceErrors >= old(readSourceErrors)
          invariant clean ==> if readSourceErrors == 0 then Inflate.ReadBits(Src(), p, i) == Got(val, P())
                              else Inflate.ReadBits(Src(), p, num) == Starved
          decreases num - i
        {
          if clean && readSourceErrors == 0 { NextBitRead(Src(), p, i, val, P(), num); }
          var bit := GetBit();
          if bit != 0 {
            val := val + mask;
          }
          Pow2Order(i + 1, num);
          mask := mask * 2;
          i := i + 1;
        }
      }
      r := val + base;
    }

    /** Decodes one symbol. Whatever the bits, and even past the end of the source, only
        slots of `trans` that hold a symbol of the code are looked up. */
    method DecodeSymbol(t: TinfTree, ghost L: seq<nat>) returns (sym: int)
      requires Reading() && t.Codes(L)
      modifies this`srcPos, this`readSourceErrors, this`tag, this`bitcount
      ensures Reading() && readSourceErrors >= old(readSourceErrors)
      ensures sym == TINF_DATA_ERROR || 0 <= sym < |L|
      ensures readSourceErrors > 0 ==> sym == TINF_DATA_ERROR
      ensures old(readSourceErrors) == 0 ==>
        match Decode(L, Src(), old(P()))
        case Starved => readSourceErrors > 0 && sym == TINF_DATA_ERROR
        case Got(v, q) => readSourceErrors == 0 && sym == v && P() == q
    {
      hide *;
      ghost var clean := readSourceErrors == 0;
      ghost var p: nat := P();
      ghost var v: nat := 0;
      var sum: int, cur: int, len: nat := 0, 0, 0;
      WalkStarts(L, Src(), p);
      while true
        invariant Reading() && readSourceErrors >= old(readSourceErrors)
        invariant Walk(L, len, sum, cur, v) && len <= 15
        invariant clean ==> readSourceErrors == 0 && Rest(L, Src(), P(), len, v) == Decode(L, Src(), p)
        decreases 16 - len
      {
        ghost var q := P();
        var bit := GetBit();
        RestStep(L, Src(), q, len, sum, cur, v, bit);
        WalkStep(t, L, len, sum, cur, v, bit);
        cur := 2 * cur + bit;
        v := 2 * v + bit;
        len := len + 1;
        if len == 16 {
          return TINF_DATA_ERROR;
        }
        sum := sum + t.table[len];
        cur := cur - t.table[len];
        if readSourceErrors > 0 {
          return TINF_DATA_ERROR;
        }
        if cur < 0 {
          break;
        }
      }
      sum := sum + cur;
      sym := t.trans[sum];
    }

    /** Reads the code lengths of the code length alphabet. */
    method CodeLengths(lengths: array<nat>, hclen: nat)
      requires Reading() && hclen <= 19 && lengths.Length == 320
      modifies this`srcPos, this`readSourceErrors, this`tag, this`bitcount, lengths
      ensures Reading() && readSourceErrors >= old(readSourceErrors)
      ensures forall k | 0 <= k < 19 :: lengths[k] <= 15
      ensures old(readSourceErrors) == 0 ==>
        var r := CodeLengthLengths(Src(), old(P()), 0, hclen, Repeat(0, 19));
        if readSourceErrors == 0 then r == GotLengths(lengths[..19], P()) else r == NoLengths
    {
      hide *;
      ghost var clean := readSourceErrors == 0;
      ghost var r := CodeLengthLengths(Src(), P(), 0, hclen, Repeat(0, 19));
      for i := 0 to 19
        modifies lengths
        invariant forall k | 0 <= k < i :: lengths[k] == 0
      {
        lengths[i] := 0;
      }
      assert lengths[..19] == Repeat(0, 19);
      for i := 0 to hclen
        invariant Reading() && readSourceErrors >= old(readSourceErrors)
        invariant forall k | 0 <= k < 19 :: lengths[k] <= 15
        invariant clean && readSourceErrors == 0 ==> CodeLengthLengths(Src(), P(), i, hclen, lengths[..19]) == r
        invariant clean && readSourceErrors > 0 ==> r == NoLengths
      {
        ghost var lens := lengths[..19];
        CodeLengthsStep(Src(), P(), i, hclen, lens);
        var clen := ReadBits(3, 0);
        lengths[CLCIDX[i]] := clen;
        assert lengths[..19] == lens[CLCIDX[i] := clen];
      }
      CodeLengthsStep(Src(), P(), hclen, hclen, lengths[..19]);
    }

    /** Fills `count` more entries. */
    method Fill(lengths: array<nat>, num: nat, count: nat, value: nat)
      requires num + count <= lengths.Length
      modifies lengths
      ensures lengths[..num + count] == old(lengths[..num]) + Repeat(value, count)
    {
      var n: nat, length: nat := num, count;
      while length != 0
        invariant n + length == num + count
        invariant lengths[..num] == old(lengths[..num])
        invariant forall k | num <= k < n :: lengths[k] == value
      {
        lengths[n] := value;
        n, length := n + 1, length - 1;
      }
    }

    /** Code length symbols 16 to 18: how many lengths to add, and which. */
    method RunOf(sym: nat, prev: nat) returns (length: nat, fill: nat)
      requires Reading() && 16 <= sym < 19
      modifies this`srcPos, this`readSourceErrors, this`tag, this`bitcount
      ensures Reading() && readSourceErrors >= old(readSourceErrors)
      ensures length >= RunBase(sym) && fill == if sym == 16 then prev else 0
      ensures old(readSourceErrors) == 0 ==>
        match Inflate.ReadBits(Src(), old(P()), RunBits(sym))
        case Starved => readSourceErrors > 0
        case Got(x, r) => readSourceErrors == 0 && length == x + RunBase(sym) && P() == r
    {
      hide BytesBits, Reading, P, Inflate.ReadBits, Pow2;
      var lbits, lbase := 0, 3;
      fill := 0;
      if sym == 16 {
        fill, lbits := prev, 2;
      } else if sym == 17 {
        lbits := 3;
      } else {
        lbits, lbase := 7, 11;
      }
      length := ReadBits(lbits, lbase);
    }

    /** One turn of the loop that reads the lengths of both trees: where it leaves off,
        or -3. Whatever the bits, it stays within `hlimit` and no length exceeds 15. */
    method RunLengthTurn(lengths: array<nat>, num: nat, hlimit: nat, ghost cl: seq<nat>) returns (next: int)
      requires Reading() && lengths.Length == 320 && num < hlimit <= 320
      requires ltree.Codes(cl) && |cl| == 19 && lengths != ltree.table && lengths != ltree.trans
      requires forall k | 0 <= k < num :: lengths[k] <= 15
      modifies this`srcPos, this`readSourceErrors, this`tag, this`bitcount, lengths
      ensures Reading() && readSourceErrors >= old(readSourceErrors)
      ensures next == TINF_DATA_ERROR || num < next <= hlimit
      ensures next != TINF_DATA_ERROR ==> forall k | 0 <= k < next :: lengths[k] <= 15
      ensures old(readSourceErrors) == 0 ==>
        var r := RunLengths(Src(), old(P()), cl, old(lengths[..num]), hlimit);
        if readSourceErrors > 0 then r == NoLengths
        else if next == TINF_DATA_ERROR then r == BadLengths
        else r == RunLengths(Src(), P(), cl, lengths[..next], hlimit)
    {
      hide *;
      ghost var lens := lengths[..num];
      RunLengthsStep(Src(), P(), cl, lens, hlimit);
      var sym := DecodeSymbol(ltree, cl);
      RunFillIs(if sym < 0 then 0 else sym, lens);
      if sym < 0 || (sym == 16 && num == 0) {
        return TINF_DATA_ERROR;
      }
      if sym < 16 {
        lengths[num] := sym;
        next := num + 1;
        assert lengths[..next] == lens + [sym];
      } else {
        var length, fill := RunOf(sym, if num == 0 then 0 else lengths[num - 1]);
        if num + length > hlimit {
          return TINF_DATA_ERROR;
        }
        Fill(lengths, num, length, fill);
        next := num + length;
        assert forall k | 0 <= k < next :: lengths[k] == lengths[..next][k];
      }
    }

    method RunLengthLoop(lengths: array<nat>, hlimit: nat, ghost cl: seq<nat>) returns (res: int)
      requires Reading() && lengths.Length == 320 && hlimit <= 320
      requires ltree.Codes(cl) && |cl| == 19 && lengths != ltree.table && lengths != ltree.trans
      modifies this`srcPos, this`readSourceErrors, this`tag, this`bitcount, lengths
      ensures Reading() && readSourceErrors >= old(readSourceErrors)
      ensures res == 0 || res == TINF_DATA_ERROR
      ensures res == 0 ==> forall k | 0 <= k < hlimit :: lengths[k] <= 15
      ensures old(readSourceErrors) == 0 ==>
        var r := RunLengths(Src(), old(P()), cl, [], hlimit);
        if readSourceErrors > 0 then r == NoLengths
        else if res == 0 then r == GotLengths(lengths[..hlimit], P())
        else r == BadLengths
    {
      ghost var r, clean := RunLengths(Src(), P(), cl, [], hlimit), readSourceErrors == 0;
      assert lengths[..0] == [];
      hide *;
      var num := 0;
      while num < hlimit
        invariant Reading() && 0 <= num <= hlimit && readSourceErrors >= old(readSourceErrors)
        invariant forall k | 0 <= k < num :: lengths[k] <= 15
        invariant clean && readSourceErrors == 0 ==> RunLengths(Src(), P(), cl, lengths[..num], hlimit) == r
        invariant clean && readSourceErrors > 0 ==> r == NoLengths
      {
        num := RunLengthTurn(lengths, num, hlimit, cl);
        if num < 0 {
          return TINF_DATA_ERROR;
        }
      }
      RunLengthsStep(Src(), P(), cl, lengths[..num], hlimit);
      res := 0;
    }

    /** The three counts that begin a dynamic block. */
    method HeaderFields() returns (hlit: nat, hdist: nat, hclen: nat)
      requires Reading()
      modifies this`srcPos, this`readSourceErrors, this`tag, this`bitcount
      ensures Reading() && readSourceErrors >= old(readSourceErrors)
      ensures 257 <= hlit <= 288 && 1 <= hdist <= 32 && 4 <= hclen <= 19
      ensures old(readSourceErrors) == 0 ==>
        if readSourceErrors > 0 then DynamicTrees(Src(), old(P())) == NoTrees
        else P() == old(P()) + 14 && DynamicTrees(Src(), old(P())) == TreesFrom(Src(), P(), hlit, hdist, hclen)
    {
      hide *;
      PowersUsed();
      ThreeReads(Src(), P());
      hlit := ReadBits(5, 257);
      hdist := ReadBits(5, 1);
      hclen := ReadBits(4, 4);
    }

    /** Reads the trees of a dynamic block into `ltree` and `dtree`. */
    method DecodeTrees() returns (res: int, ghost lit: seq<nat>, ghost dst: seq<nat>)
      requires Reading() && TreesApart()
      modifies this`srcPos, this`readSourceErrors, this`tag, this`bitcount,
               ltree.table, ltree.trans, dtree.table, dtree.trans
      ensures Reading() && readSourceErrors >= old(readSourceErrors)
      ensures res == 0 || res == TINF_DATA_ERROR
      ensures res == 0 ==> ltree.Codes(lit) && dtree.Codes(dst) && |dst| <= 32
      ensures old(readSourceErrors) == 0 ==>
        match DynamicTrees(Src(), old(P()))
        case NoTrees => readSourceErrors > 0
        case BadTrees => readSourceErrors == 0 && res == TINF_DATA_ERROR
        case GotTrees(l, d, q) => readSourceErrors == 0 && res == 0 && P() == q && lit == l && dst == d
    {
      hide BytesBits, Reading, P, DynamicTrees, CodeLengthLengths, RunLengths, TinfTree.Codes, DynamicLengths;
      lit, dst := [], [];
      ghost var clean := readSourceErrors == 0;
      var hlit, hdist, hclen := HeaderFields();
      var lengths := new nat[320];
      ghost var p := P();
      CodeLengths(lengths, hclen);
      ghost var cl := lengths[..19];
      assert lengths[0..0 + 19] == cl;
      ltree.BuildTree(lengths, 0, 19);
      res := RunLengthLoop(lengths, hlit + hdist, cl);
      TreesAre(Src(), p, hlit, hdist, hclen);
      if res != 0 {
        return;
      }
      assert lengths[0..0 + hlit] == lengths[..hlit + hdist][..hlit];
      assert lengths[hlit..hlit + hdist] == lengths[..hlit + hdist][hlit..];
      ltree.BuildTree(lengths, 0, hlit);
      dtree.BuildTree(lengths, hlit, hdist);
      lit, dst := lengths[..hlit], lengths[hlit..hlit + hdist];
    }

    /** TINF_PUT. */
    method Put(c: byte, ghost hist: seq<byte>)
      requires Past(hist) && destPos < dest.Length
      modifies this`destPos, dest, ring, ring.ring
      ensures Past(hist + [c]) && destPos == old(destPos) + 1
      ensures dest[..destPos] == old(dest[..destPos]) + [c]
      ensures ring.size > 0 ==>
        old(ring.Valid()) && ring.idx == if old(ring.idx) + 1 == ring.size then 0 else old(ring.idx) + 1
    {
      dest[destPos] := c;
      destPos := destPos + 1;
      if ring.size > 0 {
        ring.Put(c, hist);
      }
    }

    /** The byte a match copies next. */
    ghost function Copied(s: State): byte
      requires s.btype in {1, 2} && s.curlen > 0 && 1 <= s.dist <= |s.hist|
    {
      s.hist[|s.hist| - s.dist]
    }

    method CopyFromRing(ghost s: State)
      requires ring.size > 0 && Past(s.hist) && MatchAt(s) && destPos < dest.Length
      requires s.btype in {1, 2} && s.curlen > 0 && 1 <= s.dist <= |s.hist|
      modifies this`destPos, this`lzOff, dest, ring, ring.ring
      ensures Past(s.hist + [Copied(s)]) && destPos == old(destPos) + 1
      ensures ring.Valid() && lzOff == Behind(ring.idx, s.dist, ring.size)
      ensures dest[..destPos] == old(dest[..destPos]) + [Copied(s)]
    {
      hide Behind;
      BehindFollows(ring.idx, s.dist, ring.size);
      assert ring.ring[Behind(ring.idx, s.dist, ring.size)] == s.hist[|s.hist| - s.dist];
      Put(ring.ring[lzOff], s.hist);
      lzOff := lzOff + 1;
      if lzOff == ring.size {
        lzOff := 0;
      }
    }

    method CopyFromOutput(ghost s: State)
      requires ring.size == 0 && Past(s.hist) && MatchAt(s) && destPos < dest.Length
      requires s.btype in {1, 2} && s.curlen > 0 && 1 <= s.dist <= |s.hist|
      requires output != null ==> output.position == destPos
      modifies this`destPos, dest
      ensures Past(s.hist + [Copied(s)]) && destPos == old(destPos) + 1
      ensures dest[..destPos] == old(dest[..destPos]) + [Copied(s)]
    {
      if output != null {
        var out := output.ReadDestByte(lzOff);
        dest[destPos] := out;
      } else {
        dest[destPos] := dest[destPos + lzOff];
      }
      destPos := destPos + 1;
    }

    /** The end of tinf_inflate_block_data: one byte of the current match. */
    method CopyOne(ghost s: State)
      requires Past(s.hist) && MatchAt(s) && s.btype in {1, 2} && 1 <= s.dist <= |s.hist|
      requires curlen == s.curlen > 0 && destPos < dest.Length
      requires output != null ==> output.position == destPos
      modifies this`destPos, this`lzOff, this`curlen, dest, ring, ring.ring
      ensures Past(CopyByte(s).s.hist) && MatchAt(CopyByte(s).s) && curlen == s.curlen - 1
      ensures destPos == old(destPos) + 1 && dest[..destPos] == old(dest[..destPos]) + [Copied(s)]
    {
      hide Behind, Past;
      if ring.size > 0 {
        CopyFromRing(s);
      } else {
        CopyFromOutput(s);
      }
      curlen := curlen - 1;
    }

    /** Sets `lzOff` for a match `offs` back, unless that is too far. */
    method SetOffset(offs: nat, ghost s: State) returns (res: int)
      requires Past(s.hist) && offs >= 1
      requires DistanceFault(W(), offs, |s.hist|) != Undefined
      modifies this`lzOff
      ensures res == StatusCode(DistanceFault(W(), offs, |s.hist|))
      ensures res == 0 ==> offs <= |s.hist| && forall t: State | t.hist == s.hist && t.dist == offs :: MatchAt(t)
    {
      if ring.size > 0 {
        if offs > ring.size {
          return TINF_DICT_ERROR;
        }
        lzOff := ring.idx - offs;
        if lzOff < 0 {
          lzOff := lzOff + ring.size;
        }
      } else {
        if output == null && offs > destPos {
          return TINF_DATA_ERROR;
        }
        lzOff := 0 - offs;
      }
      res := 0;
    }

    /** The fields of `Rep` that reading bits leaves alone. */
    ghost predicate RepBut(s: State)
      reads this`btype, this`bfinal, this`dest, this`destPos, this`lzOff, ring, ring.ring, output, dest,
            ltree, ltree.table, ltree.trans, dtree, dtree.table, dtree.trans
    {
      WellFormed(s, W()) && TreesFor(s) && Past(s.hist) && MatchAt(s) && s.btype in {1, 2} && s.curlen == 0
      && btype == s.btype && bfinal == Bit(s.bfinal)
    }

    /** The distance half of a match of length `len`, the length having been read. */
    method StartDistance(ghost s: State, ghost p: nat, len: nat) returns (res: int, ghost t: State)
      requires RepBut(s) && Positioned(p) && len > 0
      requires !Undecided(MatchStep(Src(), s, W(), p, len))
      modifies this`srcPos, this`readSourceErrors, this`tag, this`bitcount, this`lzOff
      ensures var m := MatchStep(Src(), s, W(), p, len);
        && (res == 0 ==> MatchAt(t) && Started(s, t, len, W()))
        && (m.Byte? ==> res == 0 && Positioned(t.pos) && m == CopyByte(t))
        && (Cut(m) ==> readSourceErrors > 0 && SomeError(res))
        && (!m.Byte? && !Cut(m) ==> m.Stop? && res == StatusCode(m.status) < 0 && readSourceErrors == 0)
    {
      hide Reading, TinfTree.Codes, Decode, Past, MatchAt, Inflate.ReadBits, Lengths, P, BytesBits;
      var dist := DecodeSymbol(dtree, s.dst);
      t := s;
      if dist >= 30 {
        return TINF_DATA_ERROR, t;
      }
      DistRow(dist);
      var offs := ReadBits(DIST_BITS[dist], DIST_BASE[dist]);
      res := SetOffset(offs, s);
      t := s.(pos := P(), curlen := len, dist := offs);
    }

    /** Length/distance symbol `sym` has been read, up to `p`: begins the match. */
    method StartMatch(ghost s: State, ghost p: nat, sym: nat) returns (res: int, ghost t: State)
      requires RepBut(s) && Positioned(p) && sym >= 257
      requires !Undecided(SymbolStep(Src(), s, W(), sym, p))
      modifies this`srcPos, this`readSourceErrors, this`tag, this`bitcount, this`lzOff, this`curlen
      ensures var m := SymbolStep(Src(), s, W(), sym, p);
        && (res == 0 ==> MatchAt(t) && Started(s, t, curlen, W()))
        && (m.Byte? ==> res == 0 && Positioned(t.pos) && m == CopyByte(t))
        && (Cut(m) ==> readSourceErrors > 0 && SomeError(res))
        && (!m.Byte? && !Cut(m) ==> m.Stop? && res == StatusCode(m.status) < 0 && readSourceErrors == 0)
    {
      hide Reading, RepBut, MatchAt, MatchStep, Past, Inflate.ReadBits, P, BytesBits, Pow2;
      t := s;
      if sym - 257 >= 29 {
        return TINF_DATA_ERROR, t;
      }
      LengthRow(sym - 257);
      curlen := ReadBits(LENGTH_BITS[sym - 257], LENGTH_BASE[sym - 257]);
      res, t := StartDistance(s, P(), curlen);
    }

    /** The source has ended early. An inflate function need not say so yet, and what it has put
        out last, if anything, is no output. */
    ghost predicate CutShort(res: int, before: seq<byte>)
      reads this`readSourceErrors, this`dest, this`destPos, dest
    {
      && readSourceErrors > 0 && SomeError(res)
      && |before| <= destPos <= dest.Length && dest[..|before|] == before
    }

    /** What a step of the machine looks like to the caller of an inflate function: `res`
        is its return code, `t` the state that the fields then stand for, and `before`
        the output there was. */
    ghost predicate Stepped(m: Step, res: int, t: State, before: seq<byte>)
      reads this, ring, ring.ring, output, dest,
            ltree, ltree.table, ltree.trans, dtree, dtree.table, dtree.trans
    {
      && destPos <= dest.Length
      && match m
         case Byte(u) => res == 0 && t == u && Rep(t) && |u.hist| > 0
           && dest[..destPos] == before + [u.hist[|u.hist| - 1]]
         case Silent(u) => res == 1 && t == u && Rep(t) && dest[..destPos] == before
         case Stop(st, u) =>
           if st == Truncated then CutShort(res, before)
           else
             && res == StatusCode(st) && dest[..destPos] == before && readSourceErrors == 0
             && (st == Done ==> t == u && Rep(t))
    }

    /** A literal or the end of the block. */
    method InflateLiteral(ghost s: State, sym: int) returns (res: int, ghost t: State)
      requires RepBut(s) && curlen == 0 && destPos < dest.Length && sym <= 256
      requires if readSourceErrors == 0 then Positioned(P()) && P() <= |Src()| else sym < 256
      modifies this`destPos, dest, ring, ring.ring
      ensures readSourceErrors == 0 ==>
        Stepped(SymbolStep(Src(), s, W(), sym, P()), res, t, old(dest[..destPos]))
      ensures readSourceErrors > 0 ==> CutShort(res, old(dest[..destPos]))
    {
      hide Reading, Past, TinfTree.Codes, Lengths, BytesBits, P;
      ghost var before := dest[..destPos];
      t := s.(pos := P());
      if sym < 256 {
        Put((sym % 256) as byte, s.hist);
        t := t.(hist := s.hist + [(sym % 256) as byte]);
        FirstPart(dest[..destPos], before);
        return 0, t;
      }
      if bfinal == 0 {
        t := t.(btype := -1);
      }
      res := 1;
    }

    lemma FirstPart(all: seq<byte>, before: seq<byte>)
      requires destPos <= dest.Length && all == dest[..destPos] && |all| == |before| + 1 && before <= all
      ensures |before| <= destPos && dest[..|before|] == before
    {
      assert dest[..|before|] == all[..|before|];
    }

    /** A match and its first byte. */
    method InflateMatch(ghost s: State, sym: nat) returns (res: int, ghost t: State)
      requires RepBut(s) && Positioned(P()) && sym >= 257 && destPos < dest.Length
      requires output != null ==> output.position == destPos
      requires !Undecided(SymbolStep(Src(), s, W(), sym, P()))
      requires Progress(Src(), s, SymbolStep(Src(), s, W(), sym, P()), W())
      modifies this`srcPos, this`readSourceErrors, this`tag, this`bitcount, this`lzOff, this`curlen,
               this`destPos, dest, ring, ring.ring
      ensures Stepped(SymbolStep(Src(), s, W(), sym, old(P())), res, t, old(dest[..destPos]))
    {
      hide Reading, Past, TinfTree.Codes, Lengths, SymbolStep, P, BytesBits, MatchAt;
      res, t := StartMatch(s, P(), sym);
      if res >= 0 {
        CopyOne(t);
        t := CopyByte(t).s;
      }
    }

    /** A read has failed already, in a block with trees for some code. */
    ghost predicate Broken(s: State)
      reads this`srcPos, this`bitcount, this`tag, this`readSourceErrors, this`btype, this`bfinal, this`curlen,
            this`dest, this`destPos, this`lzOff, ring, ring.ring, output, dest,
            ltree, ltree.table, ltree.trans, dtree, dtree.table, dtree.trans
    {
      readSourceErrors > 0 && Reading() && RepBut(s) && curlen == 0
    }

    /** Inflation can go on in a block with trees. */
    ghost predicate InTrees(s: State)
      reads this`srcPos, this`readSourceErrors, this`tag, this`bitcount, this`btype, this`bfinal, this`curlen,
            this`lzOff, this`dest, this`destPos, ring, ring.ring, output, dest,
            ltree, ltree.table, ltree.trans, dtree, dtree.table, dtree.trans
    {
      Rep(s) && s.btype in {1, 2} && !Undecided(HuffmanStep(Src(), s, W()))
    }

    method InflateSymbol(ghost s: State) returns (res: int, ghost t: State)
      requires InTrees(s) || Broken(s)
      requires curlen == 0 && destPos < dest.Length
      requires output != null ==> output.position == destPos
      requires readSourceErrors == 0 ==> Progress(Src(), s, HuffmanStep(Src(), s, W()), W())
      modifies this`srcPos, this`readSourceErrors, this`tag, this`bitcount, this`lzOff, this`curlen,
               this`destPos, dest, ring, ring.ring
      ensures old(readSourceErrors) == 0 ==> Stepped(HuffmanStep(Src(), s, W()), res, t, old(dest[..destPos]))
      ensures old(readSourceErrors) > 0 ==> CutShort(res, old(dest[..destPos]))
    {
      hide Reading, Past, TinfTree.Codes, Lengths, SymbolStep, Decode, P, BytesBits, MatchAt, Progress;
      var sym := DecodeSymbol(ltree, s.lit);
      if readSourceErrors == 0 { InSource(); }
      hide Rep;
      if sym <= 256 {
        res, t := InflateLiteral(s, sym);
      } else {
        res, t := InflateMatch(s, sym);
      }
    }

    method InflateCopy(ghost s: State) returns (res: int, ghost t: State)
      requires Rep(s) && s.btype in {1, 2} && s.curlen > 0 && destPos < dest.Length
      requires output != null ==> output.position == destPos
      modifies this`destPos, this`lzOff, this`curlen, dest, ring, ring.ring
      ensures Stepped(CopyByte(s), res, t, old(dest[..destPos]))
    {
      hide Copied, Past, MatchAt, Positioned, TinfTree.Codes, Lengths;
      CopiedIs(s);
      CopyOne(s);
      res, t := 0, CopyByte(s).s;
    }

    /** tinf_inflate_block_data. */
    method InflateBlockData(ghost s: State) returns (res: int, ghost t: State)
      requires (InTrees(s) || Broken(s)) && destPos < dest.Length
      requires output != null ==> output.position == destPos
      modifies this`srcPos, this`readSourceErrors, this`tag, this`bitcount, this`lzOff, this`curlen,
               this`destPos, dest, ring, ring.ring
      ensures old(readSourceErrors) == 0 ==> Stepped(HuffmanStep(Src(), s, W()), res, t, old(dest[..destPos]))
      ensures old(readSourceErrors) > 0 ==> CutShort(res, old(dest[..destPos]))
    {
      hide Reading, Past, TreesFor, Lengths, Decode, P, BytesBits, Moves, Stepped, MatchAt;
      if readSourceErrors == 0 {
        InSource();
        HuffmanProgress(Src(), s, W());
      }
      if curlen == 0 {
        res, t := InflateSymbol(s);
      } else {
        res, t := InflateCopy(s);
      }
    }

    lemma CopiedIs(s: State)
      requires s.btype in {1, 2} && s.curlen > 0 && 1 <= s.dist <= |s.hist|
      ensures var u := CopyByte(s).s; |u.hist| > 0 && Copied(s) == u.hist[|u.hist| - 1]
    {}

    lemma InSource()
      requires Reading() && readSourceErrors == 0
      ensures P() <= |Src()|
    {}

    /** A 16-bit number at the byte position. */
    method GetUint16(ghost p: nat) returns (v: nat)
      requires p == 8 * srcPos && Inflate.ReadBits(Src(), p, 16).Got? && srcPos <= |source|
      modifies this`srcPos, this`readSourceErrors
      ensures srcPos == old(srcPos) + 2 <= |source| && readSourceErrors == old(readSourceErrors)
      ensures Inflate.ReadBits(Src(), p, 16) == Got(v, p + 16) && v < 0x10000
    {
      hide Inflate.ReadBits, BytesBits;
      TwoBytes(source, srcPos);
      v := GetByte();
      var high: nat := GetByte();
      v := v + 256 * high;
    }

    /** The length of a stored block and its complement. */
    method StoredLengths(ghost s: State) returns (length: nat, invlength: nat)
      requires Positioned(s.pos) && s.curlen == 0 && !Undecided(StoredStep(Src(), s))
      modifies this`srcPos, this`readSourceErrors
      ensures srcPos <= |source| && readSourceErrors == 0 && invlength < 0x10000
      ensures StoredStep(Src(), s) ==
        if length != 0xFFFF - invlength then Stop(DataError, s)
        else StoredByte(Src(), s.(pos := 8 * srcPos, curlen := length + 1))
    {
      hide BytesBits, ToBits, Align, At, StoredByte, Inflate.ReadBits;
      AlignedAt(srcPos, bitcount);
      length := GetUint16(8 * srcPos);
      invlength := GetUint16(8 * srcPos);
    }

    /** One byte of a stored block, or its end. */
    method StoredOne(ghost s: State) returns (res: int, ghost t: State)
      requires Rep(s) && s.btype == 0 && s.curlen > 0 && destPos < dest.Length
      requires !Undecided(StoredByte(Src(), s)) && Progress(Src(), s, StoredByte(Src(), s), W())
      modifies this`srcPos, this`readSourceErrors, this`tag, this`bitcount, this`lzOff, this`curlen,
               this`destPos, dest, ring, ring.ring
      ensures Stepped(StoredByte(Src(), s), res, t, old(dest[..destPos]))
    {
      hide Past, TinfTree.Codes, Lengths, BytesBits, ToBits, At, StoredByte, Behind;
      StoredByteIs(s);
      ghost var before := dest[..destPos];
      curlen := curlen - 1;
      t := s.(curlen := curlen);
      if curlen == 0 {
        if bfinal == 0 { t := t.(btype := -1); }
        return 1, t;
      }
      var c := GetByte();
      AtNothing(Src(), 8 * srcPos, tag);
      Put(c, s.hist);
      FirstPart(dest[..destPos], before);
      res, t := 0, t.(pos := 8 * srcPos, hist := s.hist + [c]);
    }

    /** The next byte of a stored block is the next byte of the source. */
    lemma StoredByteIs(s: State)
      requires Rep(s) && s.btype == 0 && s.curlen > 0
      ensures bitcount == 0 && s.pos == 8 * srcPos && srcPos <= |source|
      ensures bfinal == Bit(s.bfinal) && curlen == s.curlen
      ensures StoredByte(Src(), s) ==
        if s.curlen == 1 then EndBlock(s.(curlen := 0))
        else if srcPos == |source| then Stop(Truncated, s)
        else Byte(s.(pos := 8 * srcPos + 8, curlen := s.curlen - 1, hist := s.hist + [source[srcPos]]))
    {
      hide Past, TinfTree.Codes, Lengths, BytesBits, ToBits, At, Inflate.ReadBits, Behind;
      OneByteRead(source, srcPos);
    }

    /** The start of a stored block. */
    method StoredHeader(ghost s: State) returns (res: int, ghost t: State)
      requires Rep(s) && s.btype == 0 && s.curlen == 0 && !Undecided(StoredStep(Src(), s))
      modifies this`srcPos, this`readSourceErrors, this`tag, this`bitcount, this`curlen
      ensures res == 0 || res == TINF_DATA_ERROR
      ensures res == 0 ==> Rep(t) && t.btype == 0 && t.curlen > 0 && StoredStep(Src(), s) == StoredByte(Src(), t)
      ensures res != 0 ==> StoredStep(Src(), s) == Stop(DataError, s) && readSourceErrors == 0
    {
      hide Past, TinfTree.Codes, Lengths, BytesBits, ToBits, At, StoredStep, StoredByte, P;
      t := s;
      var length, invlength := StoredLengths(s);
      if length != 0xFFFF - invlength {
        return TINF_DATA_ERROR, t;
      }
      curlen := length + 1;
      bitcount := 0;
      t := s.(pos := 8 * srcPos, curlen := curlen);
      AtByteBoundary();
      res := 0;
    }

    lemma AtByteBoundary()
      requires bitcount == 0 && srcPos <= |source| && readSourceErrors == 0
      ensures Positioned(8 * srcPos)
    {
      AtNothing(Src(), 8 * srcPos, tag);
    }

    /** tinf_inflate_uncompressed_block. */
    method InflateUncompressedBlock(ghost s: State) returns (res: int, ghost t: State)
      requires Rep(s) && s.btype == 0 && destPos < dest.Length
      requires !Undecided(StoredStep(Src(), s))
      modifies this`srcPos, this`readSourceErrors, this`tag, this`bitcount, this`lzOff, this`curlen,
               this`destPos, dest, ring, ring.ring
      ensures Stepped(StoredStep(Src(), s), res, t, old(dest[..destPos]))
    {
      t := s;
      if curlen == 0 {
        res, t := StoredHeader(s);
        if res != 0 {
          return;
        }
      }
      StoredOnward(t);
      hide Rep, StoredStep, StoredByte;
      res, t := StoredOne(t);
    }

    lemma StoredOnward(s: State)
      requires Rep(s) && s.btype == 0 && s.curlen > 0
      ensures StoredStep(Src(), s) == StoredByte(Src(), s)
      ensures Progress(Src(), s, StoredByte(Src(), s), W())
    {
      InSource();
      StoredProgress(Src(), s, W());
    }

    /** The final flag and the type of a block. */
    method ReadHeader(ghost p: nat)
      requires Positioned(p) && p + 3 <= |Src()|
      modifies this`srcPos, this`readSourceErrors, this`tag, this`bitcount, this`btype, this`bfinal
      ensures Positioned(p + 3) && bfinal == Bit(Src()[p]) && btype == FromBits(Src()[p + 1..p + 3])
    {
      hide BytesBits, Reading, P, Inflate.ReadBits, FromBits;
      HeaderReads(Src(), p);
      bfinal := GetBit();
      btype := ReadBits(2, 0);
    }

    /** The trees of the block whose header ends at `p` have been read, or found bad. */
    ghost predicate TreesRead(p: nat, res: int)
      reads this`srcPos, this`bitcount, this`tag, this`readSourceErrors, this`btype,
            ltree.table, ltree.trans, dtree.table, dtree.trans
    {
      var g := DynamicTrees(Src(), p);
      && (res == if btype == 2 && g == BadTrees then TINF_DATA_ERROR else 0) && readSourceErrors == 0
      && (btype == 1 ==> ltree.Codes(FixedLit()) && dtree.Codes(FixedDist()))
      && (btype == 2 && g.GotTrees? ==> ltree.Codes(g.lit) && dtree.Codes(g.dst) && Positioned(g.pos))
      && (btype != 2 ==> Positioned(p))
    }

    /** The source has ended before the end of the trees; there may be some trees all the same. */
    ghost predicate TreesCut(res: int, lit: seq<nat>, dst: seq<nat>)
      reads this`srcPos, this`bitcount, this`tag, this`readSourceErrors, this`btype,
            ltree.table, ltree.trans, dtree.table, dtree.trans
    {
      && btype == 2 && readSourceErrors > 0 && Reading() && (res == 0 || res == TINF_DATA_ERROR)
      && (res == 0 ==> ltree.Codes(lit) && dtree.Codes(dst) && |dst| <= 32)
    }

    /** The trees of the block whose header ends at `p`. */
    method BlockTrees(ghost p: nat) returns (res: int, ghost lit: seq<nat>, ghost dst: seq<nat>)
      requires Positioned(p) && TreesApart()
      modifies this`srcPos, this`readSourceErrors, this`tag, this`bitcount,
               ltree.table, ltree.trans, dtree.table, dtree.trans
      ensures res == 0 || res == TINF_DATA_ERROR
      ensures if btype == 2 && DynamicTrees(Src(), p) == NoTrees then TreesCut(res, lit, dst) else TreesRead(p, res)
    {
      hide BytesBits, Reading, P, DynamicTrees, TinfTree.Codes;
      res, lit, dst := 0, [], [];
      if btype == 1 {
        BuildFixedTrees(ltree, dtree);
      } else if btype == 2 {
        res, lit, dst := DecodeTrees();
      }
    }

    /** Starts the next block (the label next_blk). */
    method OpenBlock(ghost s: State) returns (res: int, ghost t: State)
      requires Rep(s) && s.btype == -1 && s.curlen == 0 && !Undecided(OpenStep(Src(), s))
      modifies this`srcPos, this`readSourceErrors, this`tag, this`bitcount, this`btype, this`bfinal,
               ltree.table, ltree.trans, dtree.table, dtree.trans
      ensures res == 0 || res == TINF_DATA_ERROR
      ensures Cut(OpenStep(Src(), s)) ==> readSourceErrors > 0 && (res == 0 ==> Broken(t))
      ensures !Cut(OpenStep(Src(), s)) ==>
        if res == 0 then OpenStep(Src(), s) == Silent(t) && Rep(t) && btype == t.btype
        else OpenStep(Src(), s) == Stop(DataError, s) && readSourceErrors == 0
    {
      hide *;
      OpenReady(s);
      ReadHeader(s.pos);
      ghost var lit, dst;
      res, lit, dst := BlockTrees(s.pos + 3);
      if Cut(OpenStep(Src(), s)) {
        t := State(s.pos, 2, Src()[s.pos], 0, s.dist, lit, dst, s.hist);
        AfterCut(s, res, lit, dst);
      } else {
        AfterHeader(s, res);
        t := if res == 0 then OpenStep(Src(), s).s else s;
      }
    }

    /** What opening a block goes on. */
    lemma OpenReady(s: State)
      requires Rep(s) && s.btype == -1 && !Undecided(OpenStep(Src(), s))
      ensures Positioned(s.pos) && TreesApart() && Past(s.hist) && curlen == s.curlen && WellFormed(s, W())
      ensures s.pos + 3 <= |Src()| && TINF_DATA_ERROR == -3 && Progress(Src(), s, OpenStep(Src(), s), W())
      ensures Cut(OpenStep(Src(), s)) <==>
        FromBits(Src()[s.pos + 1..s.pos + 3]) == 2 && DynamicTrees(Src(), s.pos + 3) == NoTrees
    {
      hide OpenStep, Past, Lengths, BytesBits, Progress, TinfTree.Codes;
      InSource();
      OpenProgress(Src(), s, W());
      OpenNeeds(Src(), s);
    }

    /** With the trees cut off, some trees are as good as any. */
    lemma AfterCut(s: State, res: int, lit: seq<nat>, dst: seq<nat>)
      requires WellFormed(s, W()) && s.pos < |Src()| && TreesCut(res, lit, dst) && bfinal == Bit(Src()[s.pos])
      requires curlen == 0 && Past(s.hist) && TreesApart()
      ensures readSourceErrors > 0
      ensures res == 0 ==> Broken(State(s.pos, 2, Src()[s.pos], 0, s.dist, lit, dst, s.hist))
    {
      hide Past, Reading, BytesBits;
    }

    /** The header and the trees of a block have been read: where the machine is then. */
    lemma HeaderLeads(s: State, res: int)
      requires s.pos + 3 <= |Src()| && bfinal == Bit(Src()[s.pos]) && btype == FromBits(Src()[s.pos + 1..s.pos + 3])
      requires TreesApart() && !Undecided(OpenStep(Src(), s)) && !Cut(OpenStep(Src(), s)) && TreesRead(s.pos + 3, res)
      ensures res != 0 ==> OpenStep(Src(), s) == Stop(DataError, s) && readSourceErrors == 0
      ensures res == 0 ==> var m := OpenStep(Src(), s);
        && m.Silent? && TreesFor(m.s) && Positioned(m.s.pos)
        && btype == m.s.btype && bfinal == Bit(m.s.bfinal) && m.s.curlen == s.curlen && m.s.hist == s.hist
    {
      hide OpenStep, DynamicTrees, TinfTree.Codes, Positioned, FromBits, FixedLit, FixedDist;
      OpenCases(Src(), s);
    }

    lemma AfterHeader(s: State, res: int)
      requires s.pos + 3 <= |Src()| && bfinal == Bit(Src()[s.pos]) && btype == FromBits(Src()[s.pos + 1..s.pos + 3])
      requires TreesApart() && !Undecided(OpenStep(Src(), s)) && !Cut(OpenStep(Src(), s)) && TreesRead(s.pos + 3, res)
      requires s.curlen == curlen == 0 && Past(s.hist) && Progress(Src(), s, OpenStep(Src(), s), W())
      ensures res != 0 ==> OpenStep(Src(), s) == Stop(DataError, s) && readSourceErrors == 0
      ensures res == 0 ==> var m := OpenStep(Src(), s); m.Silent? && btype == m.s.btype && Rep(m.s)
    {
      hide Past, OpenStep, TreesFor, Positioned, WellFormed, Progress, TreesRead;
      SilentWell(Src(), s, OpenStep(Src(), s), W());
      HeaderLeads(s, res);
    }

    /** Inflation can go on within a block. */
    ghost predicate Ongoing(s: State)
      reads this`srcPos, this`readSourceErrors, this`tag, this`bitcount, this`btype, this`bfinal, this`curlen,
            this`lzOff, this`dest, this`destPos, ring, ring.ring, output, dest,
            ltree, ltree.table, ltree.trans, dtree, dtree.table, dtree.trans
    {
      Rep(s) && s.btype != -1 && !Undecided(Micro(Src(), s, W()))
    }

    lemma OngoingGives(s: State)
      requires Ongoing(s)
      ensures WellFormed(s, W()) && btype == s.btype && bfinal == Bit(s.bfinal) && readSourceErrors == 0 && Rep(s)
      ensures s.btype in {1, 2} ==> InTrees(s)
    {}

    lemma BrokenType(s: State)
      ensures Broken(s) ==> btype == s.btype && s.btype in {1, 2} && readSourceErrors > 0
    {
      hide Past, Reading, TinfTree.Codes;
    }

    /** The switch on the block type. */
    method ProcessBlock(ghost s: State) returns (res: int, ghost t: State)
      requires Ongoing(s) || Broken(s)
      requires destPos < dest.Length
      requires output != null ==> output.position == destPos
      modifies this`srcPos, this`readSourceErrors, this`tag, this`bitcount, this`lzOff, this`curlen,
               this`destPos, dest, ring, ring.ring
      ensures old(readSourceErrors) == 0 ==> Stepped(Micro(Src(), s, W()), res, t, old(dest[..destPos]))
      ensures old(readSourceErrors) > 0 ==> CutShort(res, old(dest[..destPos]))
    {
      BrokenType(s);
      if Ongoing(s) { OngoingGives(s); }
      hide Rep, StoredStep, HuffmanStep, RepBut, Reading;
      t := s;
      if btype == 0 {
        res, t := InflateUncompressedBlock(s);
      } else if btype == 1 || btype == 2 {
        res, t := InflateBlockData(s);
      } else {
        res := TINF_DATA_ERROR;
      }
    }

    lemma BlockType(s: State)
      requires Rep(s)
      ensures WellFormed(s, W()) && (s.btype != -1 ==> btype == s.btype && bfinal == Bit(s.bfinal))
    {}

    /** Inflation has come from `s` to the end of a block, with nothing put out. */
    ghost predicate AtNextBlock(s: State, t: State)
      reads this`srcPos, this`readSourceErrors, this`tag, this`bitcount, this`btype, this`bfinal, this`curlen,
            this`lzOff, this`dest, this`destPos, ring, ring.ring, output, dest,
            ltree, ltree.table, ltree.trans, dtree, dtree.table, dtree.trans
    {
      && Rep(t) && t.btype == -1 && WellFormed(s, W()) && s.pos <= |Src()| && Moves(Src(), s, t, W())
      && NextByte(Src(), t, W()) == NextByte(Src(), s, W())
    }

    /** What a step of the machine within a block means for the next byte. */
    lemma WithinBlock(s: State, res: int, t: State, before: seq<byte>)
      requires WellFormed(s, W()) && s.pos <= |Src()| && s.btype != -1 && bfinal == Bit(s.bfinal)
      requires Stepped(Micro(Src(), s, W()), res, t, before)
      ensures destPos <= dest.Length
      ensures if res == 1 && bfinal == 0 then AtNextBlock(s, t) && dest[..destPos] == before
              else Stepped(NextByte(Src(), s, W()), res, t, before) && HasType(NextByte(Src(), s, W()), res, t)
    {
      hide Rep, Micro, BytesBits, Lengths;
      NextStep(Src(), s, W());
    }

    /** After a byte or the end of the stream the fields still say what block it was in. */
    ghost predicate HasType(m: Step, res: int, t: State) {
      res >= 0 && !Cut(m) ==> t.btype != -1
    }

    lemma TurnReady(s: State)
      requires Rep(s) && s.pos <= |Src()| && !Undecided(NextByte(Src(), s, W()))
      ensures WellFormed(s, W()) && curlen == s.curlen && readSourceErrors == 0
      ensures s.btype == -1 && Cut(OpenStep(Src(), s)) ==> Cut(NextByte(Src(), s, W()))
      ensures s.btype == -1 ==>
        s.curlen == 0 && !Undecided(OpenStep(Src(), s)) && Micro(Src(), s, W()) == OpenStep(Src(), s)
      ensures s.btype == -1 && OpenStep(Src(), s).Stop? ==> NextByte(Src(), s, W()) == OpenStep(Src(), s)
      ensures s.btype == -1 && OpenStep(Src(), s).Silent? ==> var t := OpenStep(Src(), s).s;
        && t.btype != -1 && t.pos <= |Src()| && WellFormed(t, W()) && Moves(Src(), s, t, W())
        && NextByte(Src(), t, W()) == NextByte(Src(), s, W())
      ensures s.btype != -1 ==> Ongoing(s) && bfinal == Bit(s.bfinal)
    {
      hide Past, TreesFor, MatchAt, Reading, BytesBits, Lengths, OpenStep;
      NextStep(Src(), s, W());
      if s.btype == -1 { NotSilentIsByteOrStop(s); }
    }

    lemma NotSilentIsByteOrStop(s: State)
      ensures !OpenStep(Src(), s).Byte?
    {
      hide FromBits, DynamicTrees, FixedLit, FixedDist;
    }

    lemma NextByteGoesOn(s: State, t: State, u: State)
      requires Moves(Src(), s, t, W()) && AtNextBlock(t, u) && WellFormed(s, W()) && s.pos <= |Src()|
      requires s.btype == -1 && NextByte(Src(), t, W()) == NextByte(Src(), s, W())
      ensures AtNextBlock(s, u)
    {
      hide Rep, NextByte, Lengths;
    }

    /** No block could be opened. */
    lemma NotOpened(m: Step, res: int, t: State, before: seq<byte>)
      requires res == TINF_DATA_ERROR && destPos <= dest.Length && dest[..destPos] == before
      requires if Cut(m) then readSourceErrors > 0 else m.Stop? && m.status == DataError && readSourceErrors == 0
      ensures Stepped(m, res, t, before) && HasType(m, res, t)
    {
      hide Rep;
    }

    lemma StopIsNext(s: State)
      requires WellFormed(s, W()) && s.pos <= |Src()| && s.btype == -1
      ensures OpenStep(Src(), s).Stop? ==> NextByte(Src(), s, W()) == OpenStep(Src(), s)
      ensures Cut(OpenStep(Src(), s)) ==> OpenStep(Src(), s).Stop?
    {
      hide BytesBits, OpenStep;
    }

    lemma CutIsStepped(m: Step, res: int, t: State, before: seq<byte>)
      requires Cut(m) && CutShort(res, before)
      ensures Stepped(m, res, t, before) && HasType(m, res, t) && res != 1 && destPos <= dest.Length
    {
      hide Rep;
    }

    /** From a block header, or from within a block if not `opening`, to the next byte or to the
        end of the block (the body of the loop from the label next_blk on). */
    method Turn(ghost s: State, opening: bool) returns (again: bool, res: int, ghost t: State)
      requires Rep(s) && s.pos <= |Src()| && (opening <==> s.btype == -1) && destPos < dest.Length
      requires output != null ==> output.position == destPos
      requires !Undecided(NextByte(Src(), s, W()))
      modifies this, dest, ring, ring.ring, ltree.table, ltree.trans, dtree.table, dtree.trans
      ensures dest == old(dest) && destRemaining == old(destRemaining) && destPos <= dest.Length
      ensures again ==> AtNextBlock(s, t) && destPos == old(destPos) && dest[..destPos] == old(dest[..destPos])
      ensures !again ==>
        Stepped(NextByte(Src(), s, W()), res, t, old(dest[..destPos])) && HasType(NextByte(Src(), s, W()), res, t)
    {
      hide *;
      TurnReady(s);
      ghost var before := dest[..destPos];
      t := s;
      if opening {
        res, t := OpenBlock(s);
        if res != 0 {
          NotOpened(OpenStep(Src(), s), res, t, before);
          StopIsNext(s);
          return false, res, t;
        }
      }
      ghost var u := t;
      ghost var broken := opening && Cut(OpenStep(Src(), s));
      if !broken { TurnReady(t); }
      res, t := ProcessBlock(t);
      again := res == 1 && bfinal == 0;
      if broken {
        CutIsStepped(NextByte(Src(), s, W()), res, t, before);
      } else {
        WithinBlock(u, res, t, before);
        if opening && again { NextByteGoesOn(s, u, t); }
      }
    }

    /** The body of the loop of uzlib_uncompress: one byte of output, or the end. */
    method UncompressByte(ghost s: State) returns (res: int, ghost t: State)
      requires Rep(s) && (btype == -1 <==> s.btype == -1) && destPos < dest.Length
      requires output != null ==> output.position == destPos
      requires s.pos <= |Src()| && !Undecided(NextByte(Src(), s, W()))
      modifies this, dest, ring, ring.ring, ltree.table, ltree.trans, dtree.table, dtree.trans
      ensures dest == old(dest) && destRemaining == old(destRemaining)
      ensures Stepped(NextByte(Src(), s, W()), res, t, old(dest[..destPos]))
      ensures HasType(NextByte(Src(), s, W()), res, t)
    {
      hide Rep, NextByte, Stepped, HasType;
      BlockType(s);
      res, t := 0, s;
      var opening, again := btype == -1, true;
      while again
        invariant dest == old(dest) && destRemaining == old(destRemaining) && destPos <= dest.Length
        invariant again ==> destPos == old(destPos) && dest[..destPos] == old(dest[..destPos])
        invariant again ==> Rep(t) && t.pos <= |Src()| && (opening <==> t.btype == -1)
        invariant again ==> WellFormed(t, W()) && NextByte(Src(), t, W()) == NextByte(Src(), s, W())
        invariant !again ==> Stepped(NextByte(Src(), s, W()), res, t, old(dest[..destPos]))
        invariant !again ==> HasType(NextByte(Src(), s, W()), res, t)
        decreases again, |Src()| - t.pos, t.curlen, Order(t)
      {
        again, res, t := Turn(t, opening);
        opening := true;
      }
    }

    /** What a run of the machine from `s` looks like to the caller: `res` is the return
        code, `dest` has the output of the run after `base`, and unless there was an error
        the fields stand for `t`, where the run ended. If the source ends early, an error is
        returned, and what is in `dest` after the output is not meant. */
    ghost predicate Produced(r: (Status, State), res: int, t: State, base: seq<byte>, s: State)
      reads this`srcPos, this`readSourceErrors, this`tag, this`bitcount, this`btype, this`bfinal, this`curlen,
            this`lzOff, this`dest, this`destPos, ring, ring.ring, output, dest,
            ltree, ltree.table, ltree.trans, dtree, dtree.table, dtree.trans
    {
      && destPos <= dest.Length && s.hist <= r.1.hist
      && if r.0 == Truncated then res < 0 && CutShort(res, base + r.1.hist[|s.hist|..])
         else
           && res == StatusCode(r.0) && readSourceErrors == 0 && dest[..destPos] == base + r.1.hist[|s.hist|..]
           && (res >= 0 ==> t == r.1 && Rep(t) && btype == t.btype)
    }

    lemma AfterByte(m: Step, res: int, t: State, before: seq<byte>, base: seq<byte>, s: State, h: seq<byte>)
      requires Stepped(m, res, t, before) && !m.Silent? && (m.Stop? ==> m.status != Ok && m.s.hist == h)
      requires HasType(m, res, t)
      requires s.hist <= h && before == base + h[|s.hist|..]
      requires m.Byte? ==> h <= m.s.hist && |m.s.hist| == |h| + 1
      ensures m.Byte? ==> res == 0 && Produced((Ok, m.s), res, t, base, s) && destPos == |before| + 1
      ensures Cut(m) ==> readSourceErrors > 0 && (res != 0 ==> Produced((m.status, m.s), res, t, base, s))
      ensures Cut(m) ==> Produced((m.status, m.s), TINF_DATA_ERROR, t, base, s)
      ensures m.Stop? && !Cut(m) ==> res != 0 && Produced((m.status, m.s), res, t, base, s)
    {
      if m.Byte? { OneMore(s.hist, h, m.s.hist, base); }
    }

    lemma ProducedGives(t: State, base: seq<byte>, s: State)
      requires Produced((Ok, t), 0, t, base, s)
      ensures Rep(t) && WellFormed(t, W()) && btype == t.btype && s.hist <= t.hist
      ensures destPos <= dest.Length && dest[..destPos] == base + t.hist[|s.hist|..]
    {}

    /** One more byte of a run. */
    method NextOfRun(ghost t: State, ghost base: seq<byte>, ghost s: State) returns (res: int, ghost u: State)
      requires Produced((Ok, t), 0, t, base, s) && destPos < dest.Length
      requires output != null ==> output.position == destPos
      requires WellFormed(t, W()) && t.pos <= |Src()| && !Undecided(NextByte(Src(), t, W()))
      modifies this, dest, ring, ring.ring, ltree.table, ltree.trans, dtree.table, dtree.trans
      ensures dest == old(dest) && destRemaining == old(destRemaining)
      ensures var m := NextByte(Src(), t, W());
        if m.Byte? then
          && res == 0 && readSourceErrors == 0 && u == m.s && Produced((Ok, u), 0, u, base, s)
          && destPos == old(destPos) + 1
        else
          && m.Stop? && (res != 0 ==> Produced((m.status, m.s), res, u, base, s))
          && (res == 0 ==> readSourceErrors > 0 && Produced((m.status, m.s), TINF_DATA_ERROR, u, base, s))
    {
      hide *;
      RunStep(Src(), t, W(), 1);
      ProducedGives(t, base, s);
      ghost var m, before := NextByte(Src(), t, W()), dest[..destPos];
      res, u := UncompressByte(t);
      AfterByte(m, res, u, before, base, s, t.hist);
      if m.Byte? { ErrorsOf((Ok, m.s), res, u, base, s); }
      SteppedGives(m, res, u, before);
    }

    lemma ErrorsOf(r: (Status, State), res: int, t: State, base: seq<byte>, s: State)
      requires Produced(r, res, t, base, s)
      ensures readSourceErrors == 0 <==> r.0 != Truncated
    {
      hide Rep;
    }

    lemma SteppedGives(m: Step, res: int, t: State, before: seq<byte>)
      requires Stepped(m, res, t, before)
      ensures m.Byte? ==> t == m.s && destPos == |before| + 1
    {}

    /** A run towards `r` has come to `t`, with more bytes asked for. */
    ghost predicate Going(r: (Status, State), t: State, base: seq<byte>, s: State)
      reads this, ring, ring.ring, output, dest,
            ltree, ltree.table, ltree.trans, dtree, dtree.table, dtree.trans
    {
      && Produced((Ok, t), 0, t, base, s) && WellFormed(t, W()) && t.pos <= |Src()|
      && 0 < destRemaining && destPos + destRemaining <= dest.Length
      && (output != null ==> destRemaining == 1 && output.position == destPos)
      && Run(Src(), t, W(), destRemaining) == r && Decided(r.0)
    }

    lemma GoingGives(r: (Status, State), t: State, base: seq<byte>, s: State)
      requires Going(r, t, base, s)
      ensures Produced((Ok, t), 0, t, base, s) && WellFormed(t, W()) && t.pos <= |Src()|
      ensures 0 < destRemaining && destPos + destRemaining <= dest.Length
      ensures output != null ==> destRemaining == 1 && output.position == destPos
      ensures Run(Src(), t, W(), destRemaining) == r && Decided(r.0) && TINF_DATA_ERROR < 0
    {
      hide Produced, WellFormed, Run;
    }

    lemma GoingOn(r: (Status, State), t: State, base: seq<byte>, s: State)
      requires Produced((Ok, t), 0, t, base, s) && WellFormed(t, W()) && t.pos <= |Src()|
      requires 0 < destRemaining && destPos + destRemaining <= dest.Length
      requires output != null ==> destRemaining == 1 && output.position == destPos
      requires Run(Src(), t, W(), destRemaining) == r && Decided(r.0)
      ensures Going(r, t, base, s)
    {
      hide Produced, WellFormed, Run;
    }

    /** One turn of the loop. */
    method UncompressTurn(ghost r: (Status, State), ghost t: State, ghost base: seq<byte>, ghost s: State)
      returns (res: int, ghost u: State)
      requires Going(r, t, base, s)
      modifies this, dest, ring, ring.ring, ltree.table, ltree.trans, dtree.table, dtree.trans
      ensures dest == old(dest) && (res == 0 ==> 0 <= destRemaining < old(destRemaining))
      ensures res == 0 && destRemaining > 0 ==> Going(r, u, base, s)
      ensures res != 0 || destRemaining == 0 ==> Produced(r, res, u, base, s)
    {
      hide *;
      GoingGives(r, t, base, s);
      RunStep(Src(), t, W(), destRemaining);
      res, u := NextOfRun(t, base, s);
      if res == 0 {
        if readSourceErrors > 0 {
          return TINF_DATA_ERROR, u;
        }
        destRemaining := destRemaining - 1;
        if destRemaining > 0 {
          GoingOn(r, u, base, s);
        }
      }
    }

    /** uzlib_uncompress: up to `destRemaining` bytes of output. Reading copies through the
        callback works for one byte at a time only, as output_position then agrees. */
    method Uncompress(ghost s: State) returns (res: int, ghost t: State)
      requires Rep(s) && btype == s.btype && s.pos <= |Src()|
      requires destRemaining > 0 && destPos + destRemaining <= dest.Length
      requires output != null ==> destRemaining == 1 && output.position == destPos
      requires Decided(Run(Src(), s, W(), destRemaining).0)
      modifies this, dest, ring, ring.ring, ltree.table, ltree.trans, dtree.table, dtree.trans
      ensures dest == old(dest)
      ensures Produced(Run(Src(), s, W(), old(destRemaining)), res, t, old(dest[..destPos]), s)
    {
      ghost var r, base := Run(Src(), s, W(), destRemaining), dest[..destPos];
      res, t := 0, s;
      GoingStarts(s);
      hide *;
      while true
        invariant dest == old(dest) && destRemaining >= 0 && Going(r, t, base, s)
        decreases destRemaining
      {
        res, t := UncompressTurn(r, t, base, s);
        if res != 0 || destRemaining == 0 {
          return;
        }
      }
    }

    lemma GoingStarts(s: State)
      requires Rep(s) && btype == s.btype && s.pos <= |Src()|
      requires destRemaining > 0 && destPos + destRemaining <= dest.Length
      requires output != null ==> destRemaining == 1 && output.position == destPos
      requires Decided(Run(Src(), s, W(), destRemaining).0)
      ensures Going(Run(Src(), s, W(), destRemaining), s, dest[..destPos], s)
    {
      BlockType(s);
      hide Rep, Run;
      assert Produced((Ok, s), 0, s, dest[..destPos], s);
    }
  }

  lemma NoBitsRead(B: Bits, p: nat)
    ensures p <= |B| ==> Inflate.ReadBits(B, p, 0) == Got(0, p)
    ensures Pow2(0) == 1
  {}

  lemma NextBitRead(B: Bits, p: nat, i: nat, v: nat, q: nat, num: nat)
    requires Inflate.ReadBits(B, p, i) == Got(v, q) && i < num
    ensures q < |B| ==> Inflate.ReadBits(B, p, i + 1) == Got(v + (if B[q] then Pow2(i) else 0), q + 1)
    ensures q >= |B| ==> Inflate.ReadBits(B, p, num) == Starved
  {
    hide FromBits, Pow2;
    if p + i < |B| {
      FromBitsSnoc(B[p..p + i], B[p + i]);
      assert B[p..p + i + 1] == B[p..p + i] + [B[p + i]];
    }
  }

  lemma {:induction false} Pow2Order(i: nat, n: nat)
    ensures Pow2(i) < Pow2(n) <==> i < n
    ensures i > 0 ==> Pow2(i) == 2 * Pow2(i - 1)
  {
    if i > 0 && n > 0 { Pow2Order(i - 1, n - 1); }
  }

  lemma {:induction false} FromBitsSnoc(b: Bits, x: bool)
    ensures FromBits(b + [x]) == FromBits(b) + if x then Pow2(|b|) else 0
  {
    if b == [] {
    } else {
      FromBitsSnoc(b[1..], x);
      assert (b + [x])[1..] == b[1..] + [x];
    }
  }

  /** The decoding loop has read a word `v` of `len` bits that is no code. */
  ghost predicate Walk(L: seq<nat>, len: nat, sum: int, cur: int, v: nat) {
    && v < Pow2(len) && cur == v - EndTo(L, |L|, len) >= 0
    && sum == Offset(L, len + 1) && 2 * v >= First(L, len + 1)
  }

  /** What decoding comes to from there. */
  ghost function Rest(L: seq<nat>, B: Bits, p: nat, len: nat, v: nat): Read {
    if len <= 15 && 2 * v >= First(L, len + 1) then DecodeFrom(L, B, p, len, v) else Starved
  }

  ghost function SymbolAt(L: seq<nat>, len: nat, v: nat): nat {
    if First(L, len) <= v < First(L, len) + CountTo(L, len, |L|) then Nth(L, len, v - First(L, len), |L|) else 0
  }

  lemma WalkStarts(L: seq<nat>, B: Bits, p: nat)
    ensures Walk(L, 0, 0, 0, 0) && Rest(L, B, p, 0, 0) == Decode(L, B, p)
  {
    FirstOfOne(L);
  }

  lemma RestStep(L: seq<nat>, B: Bits, p: nat, len: nat, sum: int, cur: int, v: nat, bit: nat)
    requires Walk(L, len, sum, cur, v) && len <= 15
    ensures p >= |B| ==> Rest(L, B, p, len, v) == Starved
    ensures p < |B| && len == 15 ==> Rest(L, B, p, len, v) == Got(TINF_DATA_ERROR, p + 1)
    ensures p < |B| && len < 15 && bit == Bit(B[p]) && 2 * cur + bit < Count(L, len + 1) ==>
      Rest(L, B, p, len, v) == Got(SymbolAt(L, len + 1, 2 * v + bit), p + 1)
    ensures p < |B| && len < 15 && bit == Bit(B[p]) && 2 * cur + bit >= Count(L, len + 1) ==>
      Rest(L, B, p, len, v) == Rest(L, B, p + 1, len + 1, 2 * v + bit)
  {
    hide Nth, CountTo, Pow2, Offset;
    EndOfCodes(L, len);
    EndOfCodes(L, len + 1);
    CountOf(L, len + 1);
  }

  lemma WalkStep(t: TinfTree, L: seq<nat>, len: nat, sum: int, cur: int, v: nat, bit: nat)
    requires t.Codes(L) && Walk(L, len, sum, cur, v) && bit <= 1
    ensures t.table.Length == 16
    ensures len < 15 ==>
      var v', c := 2 * v + bit, t.table[len + 1];
      var cur' := 2 * cur + bit - c;
      && c == Count(L, len + 1)
      && (cur' >= 0 ==> Walk(L, len + 1, sum + c, cur', v'))
      && (cur' < 0 ==> 0 <= sum + c + cur' < t.trans.Length
                       && t.trans[sum + c + cur'] == SymbolAt(L, len + 1, v') < |L|)
  {
    hide Nth, CountTo, HasRoom, Slot;
    EndOfCodes(L, len);
    EndOfCodes(L, len + 1);
    if len < 15 {
      RoomForWord(t, L, len + 1, 2 * v + bit);
      if 2 * cur + bit < Count(L, len + 1) {
        SlotOfWord(t, L, len + 1, 2 * v + bit);
      }
    }
  }

  lemma RoomForWord(t: TinfTree, L: seq<nat>, len: nat, v: nat)
    requires t.Codes(L) && 1 <= len <= 15 && First(L, len) <= v < Pow2(len)
    ensures t.Valid() && t.table[len] == Count(L, len)
  {
    hide First, Count, Pow2, Slot;
    assert HasRoom(L, len);
  }

  /** A word below the end of its length's codes leads to the slot of the symbol it is. */
  lemma SlotOfWord(t: TinfTree, L: seq<nat>, len: nat, v: nat)
    requires t.Codes(L) && 1 <= len <= 15 && First(L, len) <= v < EndTo(L, |L|, len)
    ensures v - First(L, len) < CountTo(L, len, |L|)
    ensures var s := Nth(L, len, v - First(L, len), |L|);
      var slot := Offset(L, len + 1) + v - EndTo(L, |L|, len);
      s < |L| && 0 <= slot < |L| <= t.trans.Length && t.trans[slot] == s
  {
    hide First, CountTo, Nth, HasRoom, EndTo;
    EndOfCodes(L, len);
    CountOf(L, len);
    var s := Nth(L, len, v - First(L, len), |L|);
    SlotBound(L, s);
    assert t.trans[Slot(L, s)] == s;
    assert Offset(L, len + 1) == Offset(L, len) + Count(L, len);
  }

  lemma CodeLengthsStep(B: Bits, p: nat, i: nat, hclen: nat, lens: seq<nat>)
    requires i <= hclen <= 19 && |lens| == 19
    ensures |CLCIDX| == 19 && Pow2(3) == 8 && (i < 19 ==> CLCIDX[i] < 19)
    ensures CodeLengthLengths(B, p, i, hclen, lens) ==
      if i == hclen then GotLengths(lens, p)
      else
        match Inflate.ReadBits(B, p, 3)
        case Starved => NoLengths
        case Got(v, q) => CodeLengthLengths(B, q, i + 1, hclen, lens[CLCIDX[i] := v])
  {}

  lemma RunFillIs(sym: nat, lens: seq<nat>)
    ensures RunFill(sym, lens) == if sym == 16 && lens != [] then lens[|lens| - 1] else 0
    ensures RunBase(sym) >= 3 && TINF_DATA_ERROR == -3
  {}

  lemma RunLengthsStep(B: Bits, p: nat, cl: seq<nat>, lens: seq<nat>, limit: nat)
    requires |cl| == 19
    ensures |lens| >= limit ==> RunLengths(B, p, cl, lens, limit) == GotLengths(lens, p)
    ensures |lens| < limit ==>
      match Decode(cl, B, p)
      case Starved => RunLengths(B, p, cl, lens, limit) == NoLengths
      case Got(sym, q) =>
        if sym < 0 || (sym == 16 && lens == []) then RunLengths(B, p, cl, lens, limit) == BadLengths
        else if sym < 16 then RunLengths(B, p, cl, lens, limit) == RunLengths(B, q, cl, lens + [sym], limit)
        else
          match Inflate.ReadBits(B, q, RunBits(sym))
          case Starved => RunLengths(B, p, cl, lens, limit) == NoLengths
          case Got(x, r) =>
            var length: nat := x as nat + RunBase(sym);
            RunLengths(B, p, cl, lens, limit) ==
              if |lens| + length > limit then BadLengths
              else RunLengths(B, r, cl, lens + Repeat(RunFill(sym, lens), length), limit)
  {
    hide Decode, FromBits;
  }

  /** The trees that follow the counts. */
  ghost function TreesFrom(B: Bits, p: nat, hlit: nat, hdist: nat, hclen: nat): Trees
    requires hclen <= 19
  {
    match DynamicLengths(B, p, hclen, hlit + hdist)
    case NoLengths => NoTrees
    case BadLengths => BadTrees
    case GotLengths(lens, r) => GotTrees(lens[..hlit], lens[hlit..], r)
  }

  lemma ThreeReads(B: Bits, p: nat)
    ensures
      var a := Inflate.ReadBits(B, p, 5);
      var b := if a.Got? then Inflate.ReadBits(B, a.pos, 5) else Starved;
      var c := if b.Got? then Inflate.ReadBits(B, b.pos, 4) else Starved;
      if c.Got? then
        c.pos == p + 14 && 0 <= a.val < 32 && 0 <= b.val < 32 && 0 <= c.val < 16
        && DynamicTrees(B, p) == TreesFrom(B, p + 14, a.val + 257, b.val + 1, c.val + 4)
      else DynamicTrees(B, p) == NoTrees
  {
    hide DynamicLengths, FromBits;
    if p + 14 <= |B| {
      HeaderCounts(B, p);
    }
  }

  lemma TreesAre(B: Bits, p: nat, hlit: nat, hdist: nat, hclen: nat)
    requires hclen <= 19
    ensures
      var cl := CodeLengthLengths(B, p, 0, hclen, Repeat(0, 19));
      match cl
      case NoLengths => TreesFrom(B, p, hlit, hdist, hclen) == NoTrees
      case BadLengths => true
      case GotLengths(lens, q) =>
        |lens| == 19 &&
        match RunLengths(B, q, lens, [], hlit + hdist)
        case NoLengths => TreesFrom(B, p, hlit, hdist, hclen) == NoTrees
        case BadLengths => TreesFrom(B, p, hlit, hdist, hclen) == BadTrees
        case GotLengths(all, r) =>
          |all| == hlit + hdist && TreesFrom(B, p, hlit, hdist, hclen) == GotTrees(all[..hlit], all[hlit..], r)
  {
    hide RunLengths, CodeLengthLengths;
    CodeLengthCount(B, p, 0, hclen, Repeat(0, 19));
    var cl := CodeLengthLengths(B, p, 0, hclen, Repeat(0, 19));
    if cl.GotLengths? { RunLengthCount(B, cl.pos, cl.lens, [], hlit + hdist); }
  }

  ghost predicate Decided(st: Status) {
    st != Exhausted && st != Undefined
  }

  /** The machine stops where the C code has no defined outcome. */
  ghost predicate Undecided(m: Step) {
    m.Stop? && !Decided(m.status)
  }

  /** The source ends early. */
  ghost predicate Cut(m: Step) {
    m.Stop? && m.status == Truncated
  }

  /** What an inflate function may return then; the first of these is put right by its caller. */
  predicate SomeError(res: int) {
    res == 0 || res == TINF_DATA_ERROR || res == TINF_DICT_ERROR
  }

  /** `t` is `s` with a match of length `len` begun. */
  ghost predicate Started(s: State, t: State, len: nat, w: Window) {
    && t == s.(pos := t.pos, curlen := len, dist := t.dist)
    && len > 0 && 1 <= t.dist <= |t.hist| && (w.Ring? ==> t.dist <= w.size)
  }

  lemma AlignedAt(i: nat, bitcount: nat)
    requires bitcount <= 7 && 8 * i >= bitcount
    ensures Align(8 * i - bitcount) == 8 * i
  {}

  lemma AtNothing(B: Bits, p: nat, v: nat)
    requires p <= |B|
    ensures At(B, p, ToBits(v, 0))
  {}

  /** A whole byte. */
  lemma OneByteRead(s: seq<byte>, i: nat)
    ensures Inflate.ReadBits(BytesBits(s), 8 * i, 8) == if i < |s| then Got(s[i], 8 * i + 8) else Starved
  {
    hide ToBits, BytesBits, FromBits, Pow2;
    if i < |s| {
      BytesBitsAt(s, i);
      PowersUsed();
      BitsRead(BytesBits(s), 8 * i, s[i], 8);
    }
  }

  /** Two bytes, low one first. */
  function LittleEndian16(a: byte, b: byte): nat { a as nat + 256 * b as nat }

  lemma TwoBytes(s: seq<byte>, i: nat)
    ensures i + 2 <= |s| ==>
      Inflate.ReadBits(BytesBits(s), 8 * i, 16) == Got(LittleEndian16(s[i], s[i + 1]), 8 * i + 16)
    ensures i + 2 > |s| ==> Inflate.ReadBits(BytesBits(s), 8 * i, 16) == Starved
  {
    hide *;
    if i + 2 <= |s| {
      BytesBitsAt(s, i);
      BytesBitsAt(s, i + 1);
      TwoBytesAt(BytesBits(s), 8 * i, s[i], s[i + 1]);
    } else {
      BitsMissing(BytesBits(s), 8 * i, 16);
    }
  }

  lemma BitsMissing(B: Bits, p: nat, n: nat)
    requires p + n > |B|
    ensures Inflate.ReadBits(B, p, n) == Starved
  {}

  lemma LittleEndianIs(a: byte, b: byte)
    ensures LittleEndian16(a, b) == a as nat + Shl(b, 8) < Pow2(16) && a < Pow2(8)
  {
    hide Pow2, Shl;
    OneByte(b, 8);
    PowersUsed();
  }

  lemma TwoBytesAt(B: Bits, p: nat, a: byte, b: byte)
    requires At(B, p, ToBits(a, 8)) && At(B, p + 8, ToBits(b, 8))
    ensures Inflate.ReadBits(B, p, 16) == Got(LittleEndian16(a, b), p + 16)
  {
    hide *;
    var v := LittleEndian16(a, b);
    LittleEndianIs(a, b);
    ToBitsAdd(a, b, 8, 8);
    AtConcat(B, p, ToBits(a, 8), ToBits(b, 8));
    BitsRead(B, p, v, 16);
  }

  /** A block header read as one bit and two. */
  lemma HeaderReads(B: Bits, p: nat)
    ensures p + 3 <= |B| ==> Inflate.ReadBits(B, p + 1, 2) == Got(FromBits(B[p + 1..p + 3]), p + 3)
    ensures p + 3 > |B| ==> p >= |B| || Inflate.ReadBits(B, p + 1, 2) == Starved
  {}

  lemma SilentWell(B: Bits, s: State, m: Step, w: Window)
    requires Progress(B, s, m, w)
    ensures m.Silent? ==> WellFormed(m.s, w)
  {}

  lemma OpenNeeds(B: Bits, s: State)
    requires !Undecided(OpenStep(B, s))
    ensures s.pos + 3 <= |B|
    ensures Cut(OpenStep(B, s)) <==> FromBits(B[s.pos + 1..s.pos + 3]) == 2 && DynamicTrees(B, s.pos + 3) == NoTrees
    ensures TINF_DATA_ERROR == -3
  {}

  /** What a block header leads to, by block type. */
  lemma OpenCases(B: Bits, s: State)
    requires !Undecided(OpenStep(B, s)) && !Cut(OpenStep(B, s))
    ensures s.pos + 3 <= |B|
    ensures var btype, trees := FromBits(B[s.pos + 1..s.pos + 3]), DynamicTrees(B, s.pos + 3);
      && (btype == 2 ==> trees != NoTrees)
      && (btype == 2 && trees == BadTrees ==> OpenStep(B, s) == Stop(DataError, s))
      && (btype != 2 || trees.GotTrees? ==>
            OpenStep(B, s) == Silent(State(
              if btype == 2 then trees.pos else s.pos + 3, btype, B[s.pos], s.curlen, s.dist,
              if btype == 1 then FixedLit() else if btype == 2 then trees.lit else s.lit,
              if btype == 1 then FixedDist() else if btype == 2 then trees.dst else s.dst, s.hist)))
  {
    hide DynamicTrees, FromBits, FixedLit, FixedDist;
  }

  lemma NextStep(B: Bits, s: State, w: Window)
    requires WellFormed(s, w) && s.pos <= |B|
    ensures Progress(B, s, Micro(B, s, w), w)
    ensures var m := Micro(B, s, w);
      && (m.Silent? ==> WellFormed(m.s, w) && m.s.pos <= |B| && NextByte(B, s, w) == NextByte(B, m.s, w))
      && (!m.Silent? ==> NextByte(B, s, w) == m)
      && (m.Silent? ==> (m.s.btype == -1 <==> s.btype != -1))
      && (m.Silent? && s.btype != -1 ==> !s.bfinal)
      && (m.Stop? && m.status == Done ==> s.bfinal && m.s.btype != -1)
      && (m.Byte? ==> m.s.btype != -1)
      && (m.Silent? ==> m.s.hist == s.hist && Moves(B, s, m.s, w))
    ensures s.btype == -1 ==> Micro(B, s, w) == OpenStep(B, s)
  {
    MicroProgress(B, s, w);
    SilentSteps(B, s, w);
    hide Micro;
  }

  /** Silent steps lead from a block to a block header or back. */
  lemma SilentSteps(B: Bits, s: State, w: Window)
    requires WellFormed(s, w)
    ensures var m := Micro(B, s, w);
      && (m.Silent? ==> (m.s.btype == -1 <==> s.btype != -1))
      && (m.Silent? && s.btype != -1 ==> !s.bfinal)
      && (m.Stop? && m.status == Done ==> s.bfinal && m.s.btype != -1)
      && (m.Byte? ==> m.s.btype != -1)
  {
    hide FromBits, DynamicTrees, Decode, FixedLit, FixedDist, Inflate.ReadBits;
  }

  lemma RunStep(B: Bits, s: State, w: Window, n: nat)
    requires WellFormed(s, w) && s.pos <= |B| && n > 0
    ensures var r, m := Run(B, s, w, n), NextByte(B, s, w);
      if m.Byte? then
        && WellFormed(m.s, w) && m.s.pos <= |B| && s.hist <= m.s.hist && |m.s.hist| == |s.hist| + 1
        && r == Run(B, m.s, w, n - 1) && (n == 1 ==> r == (Ok, m.s))
      else m.Stop? && r == (m.status, m.s) && m.s.hist == s.hist
    ensures Decided(Run(B, s, w, n).0) ==> !Undecided(NextByte(B, s, w))
  {
    hide NextByte;
    StopKeeps(B, s, w);
  }

  /** A run for one byte. */
  lemma OneStep(B: Bits, t: State, w: Window)
    requires WellFormed(t, w) && t.pos <= |B|
    ensures var r := Run(B, t, w, 1);
      && t.hist <= r.1.hist && |r.1.hist| == |t.hist| + (if r.0 == Ok then 1 else 0)
      && (r.0 == Ok ==> WellFormed(r.1, w) && r.1.pos <= |B|)
  {
    hide NextByte, BytesBits;
    RunStep(B, t, w, 1);
  }

  /** Nothing is output by a step that stops. */
  lemma {:induction false} StopKeeps(B: Bits, s: State, w: Window)
    requires WellFormed(s, w) && s.pos <= |B|
    ensures var m := NextByte(B, s, w); m.Stop? ==> m.s.hist == s.hist
    decreases |B| - s.pos, s.curlen, Order(s)
  {
    hide Micro;
    NextStep(B, s, w);
    MicroStopKeeps(B, s, w);
    var m := Micro(B, s, w);
    if m.Silent? { StopKeeps(B, m.s, w); }
  }

  lemma MicroStopKeeps(B: Bits, s: State, w: Window)
    requires WellFormed(s, w)
    ensures var m := Micro(B, s, w); m.Stop? ==> m.s.hist == s.hist
  {
    hide FromBits, DynamicTrees, Decode, FixedLit, FixedDist, Inflate.ReadBits;
  }

  lemma OneMore(s: seq<byte>, h: seq<byte>, h': seq<byte>, before: seq<byte>)
    requires s <= h <= h' && |h'| == |h| + 1
    ensures before + h[|s|..] + [h'[|h|]] == before + h'[|s|..]
  {
    assert h' == h + [h'[|h|]];
  }
}
