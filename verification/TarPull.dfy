/** Extraction that pulls: tarReadGzStream inflates just as many bytes as the extractor asks
    for, a byte at a time into the extractor's own buffer. */
module TarPull {
  import opened Bits
  import Checksum
  import opened Chunked
  import opened Gzip
  import opened GzPack
  import GzUnpack
  import opened Huffman
  import opened Inflate
  import opened TarHeader
  import TarSpec
  import opened Tinflate
  import UntarSpec

  class TarGzReader {
    const z: GzInflater
    var tarReadGzStreamBytes: nat

    constructor (z: GzInflater)
      ensures this.z == z && tarReadGzStreamBytes == 0
    {
      this.z, tarReadGzStreamBytes := z, 0;
    }

    /** Inflation with a ring, which this mode needs, has come to `t`; output goes to `buff`. */
    ghost predicate At(t: State, buff: array<byte>)
      reads z, z.d, z.d.ring, z.d.ring.ring,
            z.d.ltree, z.d.ltree.table, z.d.ltree.trans, z.d.dtree, z.d.dtree.table, z.d.dtree.trans
    {
      && z.destSize == 1 && z.checksum.Crc32? && z.d.ring.size > 0 && z.d.output == null
      && z.d.ring.ring != buff && z.d.ring.Holds(t.hist)
      && WellFormed(t, z.d.W()) && z.d.Positioned(t.pos) && z.d.TreesFor(t) && z.d.Flags(t) && z.d.MatchAt(t)
      && z.d.btype == t.btype && t.pos <= |z.d.Src()|
    }

    lemma CanGoOn(t: State, buff: array<byte>, i: nat)
      requires At(t, buff) && z.d.dest == buff && z.d.destPos == i <= buff.Length
      ensures z.d.Rep(t) && z.d.btype == t.btype && t.pos <= |z.d.Src()| && WellFormed(t, z.d.W())
      ensures z.destSize == 1 && z.d.output == null && In32Bits(z.checksum)
    {
      hide TinfTree.Codes, Lengths, BytesBits;
    }

    lemma HasGoneOn(t: State, buff: array<byte>)
      requires z.d.Rep(t) && z.d.btype == t.btype && t.pos <= |z.d.Src()| && z.d.dest == buff
      requires z.destSize == 1 && z.d.output == null && z.d.ring.size > 0 && z.checksum.Crc32?
      ensures At(t, buff)
    {
      hide TinfTree.Codes, Lengths, BytesBits;
    }

    /** What a call of the inflater for one byte at `i` comes to. */
    ghost predicate Pulled(r: (Status, State), res: int, u: State, buff: array<byte>, before: seq<byte>, c: Running)
      reads z, z.d, buff, z.d.ring, z.d.ring.ring,
            z.d.ltree, z.d.ltree.table, z.d.ltree.trans, z.d.dtree, z.d.dtree.table, z.d.dtree.trans
    {
      && (res == 0 <==> r.0 == Ok) && |before| < buff.Length && buff[..|before|] == before
      && (r.0 == Ok ==>
            && u == r.1 && At(u, buff) && |u.hist| > 0
            && buff[..|before| + 1] == before + [u.hist[|u.hist| - 1]]
            && z.checksum == Updated(c, [u.hist[|u.hist| - 1]]))
    }

    lemma OnePulled(r: (Status, State), res: int, u: State, t: State, buff: array<byte>, before: seq<byte>, c: Running)
      requires z.Checked(r, res, u, t, before, c) && Decided(r.0) && c.Crc32?
      requires |r.1.hist| == |t.hist| + if r.0 == Ok then 1 else 0
      requires r.0 == Ok ==> r.1.pos <= |z.d.Src()|
      requires z.d.dest == buff && |before| < buff.Length
      requires z.destSize == 1 && z.d.output == null && z.d.ring.size > 0
      ensures Pulled(r, res, u, buff, before, c)
    {
      hide TinfData.Rep, At, Updated;
      if r.0 != Truncated {
        var all := z.d.dest[..z.d.destPos];
        assert z.d.dest[..|before|] == all[..|before|] == before;
      }
      if r.0 == Ok {
        var all := z.d.dest[..z.d.destPos];
        Kind(c, r.1.hist[|t.hist|..]);
        HasGoneOn(u, buff);
        assert r.1.hist[|t.hist|..] == [u.hist[|u.hist| - 1]];
      }
    }

    lemma Kind(c: Running, data: seq<byte>)
      requires c.Crc32?
      ensures Updated(c, data).Crc32?
    {
      hide Checksum.Crc;
    }

    method PullByte(buff: array<byte>, i: nat, ghost t: State) returns (res: int, ghost u: State)
      requires At(t, buff) && i < buff.Length && Decided(Run(z.d.Src(), t, z.d.W(), 1).0)
      modifies z`checksum, z.d, buff, z.d.ring, z.d.ring.ring, z.d.ltree.table, z.d.ltree.trans,
               z.d.dtree.table, z.d.dtree.trans
      ensures Pulled(Run(z.d.Src(), t, z.d.W(), 1), res, u, buff, old(buff[..i]), old(z.checksum))
    {
      z.d.dest, z.d.destPos := buff, i;
      CanGoOn(t, buff, i);
      ghost var r, before, c := Run(z.d.Src(), t, z.d.W(), 1), buff[..i], z.checksum;
      OneStep(z.d.Src(), t, z.d.W());
      Kinds(t, buff);
      hide *;
      res, u := z.UncompressChksum(t);
      OnePulled(r, res, u, t, buff, before, c);
    }

    lemma Kinds(t: State, buff: array<byte>)
      requires At(t, buff)
      ensures z.checksum.Crc32? && z.d.ring.size > 0 && WellFormed(t, z.d.W()) && t.pos <= |z.d.Src()|
    {
      hide TinfTree.Codes, Lengths, BytesBits;
    }

    /** Inflation has gone on from `t` to `u`, with `i` bytes in `buff` and `left` to go to `r`. */
    ghost predicate Going(r: (Status, State), t: State, u: State, buff: array<byte>, i: nat, left: nat, c: Running)
      reads z, z.d, buff, z.d.ring, z.d.ring.ring,
            z.d.ltree, z.d.ltree.table, z.d.ltree.trans, z.d.dtree, z.d.dtree.table, z.d.dtree.trans
    {
      && At(u, buff) && i + left <= buff.Length && WellFormed(u, z.d.W()) && u.pos <= |z.d.Src()|
      && Run(z.d.Src(), u, z.d.W(), left) == r && Decided(r.0)
      && t.hist <= u.hist && |u.hist| == |t.hist| + i && buff[..i] == u.hist[|t.hist|..]
      && In32Bits(c) && z.checksum == Updated(c, u.hist[|t.hist|..])
    }

    lemma GoingStarts(t: State, buff: array<byte>, n: nat)
      requires At(t, buff) && n <= buff.Length && Decided(Run(z.d.Src(), t, z.d.W(), n).0)
      ensures Going(Run(z.d.Src(), t, z.d.W(), n), t, t, buff, 0, n, z.checksum)
    {
      hide Run, Updated, At;
      Kinds(t, buff);
      NothingAdded(z.checksum, t.hist);
    }

    lemma GoingOn(r: (Status, State), t: State, s: State, u: State, buff: array<byte>, i: nat, left: nat, c: Running,
                  before: seq<byte>, d: Running, res: int)
      requires left > 0 && WellFormed(s, z.d.W()) && s.pos <= |z.d.Src()| && Run(z.d.Src(), s, z.d.W(), left) == r
      requires Decided(r.0) && i + left <= buff.Length && In32Bits(c)
      requires t.hist <= s.hist && |s.hist| == |t.hist| + i && before == s.hist[|t.hist|..]
      requires d == Updated(c, before) && Pulled(Run(z.d.Src(), s, z.d.W(), 1), res, u, buff, before, d)
      ensures res == 0 ==> Going(r, t, u, buff, i + 1, left - 1, c)
      ensures res != 0 ==> r.0 != Ok && r.1.hist == s.hist && buff[..i] == s.hist[|t.hist|..]
    {
      hide Run, Updated, At;
      FirstOf(z.d.Src(), s, z.d.W(), left);
      if res == 0 { AddedOne(c, t.hist, s.hist, u.hist); }
    }

    lemma GoingGives(r: (Status, State), t: State, u: State, buff: array<byte>, i: nat, left: nat, c: Running)
      requires Going(r, t, u, buff, i, left, c)
      ensures At(u, buff) && i + left <= buff.Length && WellFormed(u, z.d.W()) && u.pos <= |z.d.Src()|
      ensures Run(z.d.Src(), u, z.d.W(), left) == r && Decided(r.0)
      ensures t.hist <= u.hist && |u.hist| == |t.hist| + i && buff[..i] == u.hist[|t.hist|..]
      ensures In32Bits(c) && z.checksum == Updated(c, u.hist[|t.hist|..])
      ensures left == 0 ==> r == (Ok, u)
      ensures left > 0 ==> Decided(Run(z.d.Src(), u, z.d.W(), 1).0)
    {
      hide Updated, At, NextByte;
      if left > 0 { FirstOf(z.d.Src(), u, z.d.W(), left); }
    }

    /** tarReadGzStream: as many bytes as there are, up to `buffsize`. */
    method TarReadGzStream(buff: array<byte>, buffsize: nat, ghost t: State) returns (i: nat, ghost u: State)
      requires At(t, buff) && buffsize <= buff.Length && Decided(Run(z.d.Src(), t, z.d.W(), buffsize).0)
      modifies this, z`checksum, z.d, buff, z.d.ring, z.d.ring.ring, z.d.ltree.table, z.d.ltree.trans,
               z.d.dtree.table, z.d.dtree.trans
      ensures tarReadGzStreamBytes == old(tarReadGzStreamBytes) + i
      ensures buffsize % TAR_BLOCK_SIZE != 0 ==> i == 0 && u == t && At(t, buff)
      ensures buffsize % TAR_BLOCK_SIZE == 0 ==>
        var r := Run(z.d.Src(), t, z.d.W(), buffsize);
        && i <= buffsize && |r.1.hist| == |t.hist| + i && buff[..i] == r.1.hist[|t.hist|..]
        && (i == buffsize <==> r.0 == Ok)
        && (r.0 == Ok ==> u == r.1 && At(u, buff) && z.checksum == Updated(old(z.checksum), r.1.hist[|t.hist|..]))
    {
      hide At, Run, Going, Pulled, Updated;
      i, u := 0, t;
      if buffsize % TAR_BLOCK_SIZE != 0 {
        return;
      }
      Kinds(t, buff);
      ghost var r, c := Run(z.d.Src(), t, z.d.W(), buffsize), z.checksum;
      GoingStarts(t, buff, buffsize);
      while i < buffsize
        invariant i <= buffsize && Going(r, t, u, buff, i, buffsize - i, c)
        invariant tarReadGzStreamBytes == old(tarReadGzStreamBytes)
      {
        GoingGives(r, t, u, buff, i, buffsize - i, c);
        ghost var s, before, d := u, buff[..i], z.checksum;
        var res;
        res, u := PullByte(buff, i, s);
        GoingOn(r, t, s, u, buff, i, buffsize - i, c, before, d, res);
        if res != 0 {
          tarReadGzStreamBytes := tarReadGzStreamBytes + i;
          return;
        }
        i := i + 1;
      }
      GoingGives(r, t, u, buff, i, 0, c);
      tarReadGzStreamBytes := tarReadGzStreamBytes + i;
    }
  }

  /** A run is its first byte and the rest. */
  lemma FirstOf(B: Bits, t: State, w: Window, n: nat)
    requires WellFormed(t, w) && t.pos <= |B| && n > 0
    ensures var m := Run(B, t, w, 1);
      && Run(B, t, w, n) == (if m.0 == Ok then Run(B, m.1, w, n - 1) else m)
      && t.hist <= m.1.hist && |m.1.hist| == |t.hist| + (if m.0 == Ok then 1 else 0)
      && (m.0 == Ok ==> WellFormed(m.1, w) && m.1.pos <= |B|)
      && (Decided(Run(B, t, w, n).0) ==> Decided(m.0))
  {
    hide Run, Lengths;
    RunResumes(B, t, w, 1, n - 1);
    OneStep(B, t, w);
  }

  lemma NothingAdded(c: Running, h: seq<byte>)
    ensures Updated(c, h[|h|..]) == c
  {}

  lemma AddedOne(c: Running, h: seq<byte>, g: seq<byte>, g': seq<byte>)
    requires h <= g <= g' && |g'| == |g| + 1 && In32Bits(c)
    ensures g'[|h|..] == g[|h|..] + [g'[|g'| - 1]]
    ensures Updated(c, g'[|h|..]) == Updated(Updated(c, g[|h|..]), [g'[|g'| - 1]])
  {
    assert g'[|h|..] == g[|h|..] + [g'[|g'| - 1]];
    UpdatedConcat(c, g[|h|..], [g'[|g'| - 1]]);
  }

  /** A run that stops has put out less than was asked for. */
  lemma {:induction false} RunStops(B: Bits, s: State, w: Window, n: nat)
    requires WellFormed(s, w) && s.pos <= |B|
    ensures var r := Run(B, s, w, n); r.0 != Ok ==> s.hist <= r.1.hist && |r.1.hist| < |s.hist| + n
    decreases n
  {
    hide NextByte, Lengths;
    if n == 0 {
    } else {
      StopKeeps(B, s, w);
      var m := NextByte(B, s, w);
      if m.Byte? { RunStops(B, m.s, w, n - 1); }
    }
  }

  /** However much of a member is asked for: so much is put out, or all there is. */
  lemma RunDelivers(dst: seq<byte>, src: seq<byte>, cs: seq<Chunk>, w: Window, prefill: seq<byte>, n: nat)
    requires Member(dst, src, cs) && GzUnpack.Suits(w, prefill)
    ensures 80 <= |BytesBits(dst)| && WellFormed(Initial(80, prefill), w)
    ensures var r := Run(BytesBits(dst), Initial(80, prefill), w, n);
      if n <= |src| then r.0 == Ok && r.1.hist == prefill + src[..n] else r.0 == Done && r.1.hist == prefill + src
  {
    hide Run, All, WellFormed, Member, BytesBits;
    MemberInflates(dst, src, cs, prefill, w);
    var B, s := BytesBits(dst), Initial(80, prefill);
    RunOfAll(B, s, w, n);
    RunStops(B, s, w, n);
    var r := Run(B, s, w, n);
    if r.0 == Ok {
      GzUnpack.AllKeeps(B, r.1, w);
      Beginning(prefill, src, r.1.hist, n);
    }
  }

  lemma Beginning(a: seq<byte>, b: seq<byte>, h: seq<byte>, n: nat)
    requires h <= a + b && |h| == |a| + n
    ensures n <= |b| && h == a + b[..n]
  {}

  /** So the extractor that reads a compressed archive block by block is given its blocks, one
      after the other, and then no more. */
  lemma BlocksPulled(dst: seq<byte>, blocks: seq<UntarSpec.Block>, cs: seq<Chunk>, w: Window, prefill: seq<byte>,
                     k: nat)
    requires Member(dst, TarSpec.Flat(blocks), cs) && GzUnpack.Suits(w, prefill) && k <= |blocks|
    ensures 80 <= |BytesBits(dst)| && WellFormed(Initial(80, prefill), w)
    ensures var t := Run(BytesBits(dst), Initial(80, prefill), w, 512 * k);
      && t.0 == Ok
      && var r := Run(BytesBits(dst), t.1, w, 512);
         if k < |blocks| then r.0 == Ok && r.1.hist == t.1.hist + blocks[k] else r.0 == Done && r.1.hist == t.1.hist
  {
    hide *;
    var src := TarSpec.Flat(blocks);
    RunDeliversOn(dst, src, cs, w, prefill, 512 * k, 512);
    if k < |blocks| {
      BlockInside(blocks, k);
      AddSlice(prefill, src, 512 * k, 512 * k + 512, blocks[k]);
    } else {
      AddSlice(prefill, src, 512 * k, 512 * k, []);
    }
  }

  /** `k` blocks have been pulled and inflation has come to `t`. */
  ghost predicate SoFar(dst: seq<byte>, blocks: seq<UntarSpec.Block>, w: Window, prefill: seq<byte>, k: nat, t: State,
                        data: seq<byte>)
  {
    && k <= |blocks| && data == TarSpec.Flat(blocks[..k])
    && 80 <= |BytesBits(dst)| && WellFormed(Initial(80, prefill), w)
    && t == Run(BytesBits(dst), Initial(80, prefill), w, 512 * k).1
  }

  lemma PullStarts(dst: seq<byte>, blocks: seq<UntarSpec.Block>, cs: seq<Chunk>, w: Window, prefill: seq<byte>)
    requires Member(dst, TarSpec.Flat(blocks), cs) && GzUnpack.Suits(w, prefill)
    ensures SoFar(dst, blocks, w, prefill, 0, Initial(80, prefill), [])
  {
    hide Member, BytesBits, Lengths;
    BlocksPulled(dst, blocks, cs, w, prefill, 0);
  }

  /** What the next call delivers. */
  lemma PullNext(dst: seq<byte>, blocks: seq<UntarSpec.Block>, cs: seq<Chunk>, w: Window, prefill: seq<byte>, k: nat,
                 t: State, data: seq<byte>)
    requires Member(dst, TarSpec.Flat(blocks), cs) && GzUnpack.Suits(w, prefill)
    requires SoFar(dst, blocks, w, prefill, k, t, data)
    ensures t.pos <= |BytesBits(dst)| && WellFormed(t, w)
    ensures var r := Run(BytesBits(dst), t, w, 512);
      if k < |blocks| then
        && r.0 == Ok && r.1.hist == t.hist + blocks[k]
        && SoFar(dst, blocks, w, prefill, k + 1, r.1, data + blocks[k])
      else r.0 == Done && r.1.hist == t.hist && data == TarSpec.Flat(blocks)
  {
    hide Run, Member, BytesBits, Lengths, WellFormed, TarSpec.Flat, GzUnpack.Suits;
    BlocksPulled(dst, blocks, cs, w, prefill, k);
    FlatNext(blocks, k);
    if k < |blocks| { RunResumes(BytesBits(dst), Initial(80, prefill), w, 512 * k, 512); }
  }

  lemma FlatNext(blocks: seq<UntarSpec.Block>, k: nat)
    requires k <= |blocks|
    ensures if k < |blocks| then TarSpec.Flat(blocks[..k + 1]) == TarSpec.Flat(blocks[..k]) + blocks[k]
            else blocks[..k] == blocks
  {
    if k < |blocks| { assert blocks[..k + 1][..k] == blocks[..k]; }
  }

  /** One run after another. */
  lemma RunDeliversOn(dst: seq<byte>, src: seq<byte>, cs: seq<Chunk>, w: Window, prefill: seq<byte>, n: nat, m: nat)
    requires Member(dst, src, cs) && GzUnpack.Suits(w, prefill) && n <= |src|
    ensures 80 <= |BytesBits(dst)| && WellFormed(Initial(80, prefill), w)
    ensures var t := Run(BytesBits(dst), Initial(80, prefill), w, n);
      && t.0 == Ok && t.1.hist == prefill + src[..n]
      && var r := Run(BytesBits(dst), t.1, w, m);
         if n + m <= |src| then r.0 == Ok && r.1.hist == prefill + src[..n + m]
         else r.0 == Done && r.1.hist == prefill + src
  {
    hide Run, WellFormed, Member, BytesBits;
    RunDelivers(dst, src, cs, w, prefill, n);
    RunDelivers(dst, src, cs, w, prefill, n + m);
    RunResumes(BytesBits(dst), Initial(80, prefill), w, n, m);
  }

  lemma AddSlice(a: seq<byte>, s: seq<byte>, i: nat, j: nat, b: seq<byte>)
    requires i <= j <= |s| && s[..j] == s[..i] + b
    ensures a + s[..j] == a + s[..i] + b
    ensures i == |s| ==> a + s == a + s[..i]
  {
    if i == |s| { assert s[..i] == s; }
  }

  lemma {:induction false} BlockInside(blocks: seq<UntarSpec.Block>, k: nat)
    requires k < |blocks|
    ensures TarSpec.Flat(blocks)[..512 * k + 512] == TarSpec.Flat(blocks)[..512 * k] + blocks[k]
  {
    if k < |blocks| - 1 {
      BlockInside(blocks[..|blocks| - 1], k);
    }
  }

  lemma ReadyToPull(u: GzUnpack.GzUnpacker, g: TarGzReader, t: State, prefill: seq<byte>, buff: array<byte>)
    requires u.At(t, prefill) && g.z == u.z && u.z.d.ring.size > 0 && u.z.d.ring.ring != buff
    ensures g.At(t, buff) && WellFormed(t, u.z.d.W())
  {
    hide TinfTree.Codes, Lengths, BytesBits;
  }
}
