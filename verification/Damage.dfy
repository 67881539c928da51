/** Damaged sources. Cut off, they are read like the whole as far as they go; with another
    trailer, they are inflated all the same. */
module Damage {
  import opened Bits
  import Checksum
  import opened Chunked
  import opened FixedTrees
  import opened GzHeader
  import Gzip
  import opened GzPack
  import opened GzUnpack
  import opened Huffman
  import opened Inflate
  import Tables
  import Tinflate

  lemma {:induction false} DecodeAgrees(L: seq<nat>, B: Bits, C: Bits, p: nat, k: nat, v: nat)
    requires B <= C && k <= 15 && 2 * v >= First(L, k + 1)
    ensures var r := DecodeFrom(L, B, p, k, v); r.Got? ==> DecodeFrom(L, C, p, k, v) == r
    decreases 15 - k
  {
    hide First, Count, Nth;
    if p < |B| && k < 15 {
      assert B[p] == C[p];
      var v' := 2 * v + Bit(B[p]);
      if v' >= First(L, k + 1) + Count(L, k + 1) {
        EndOfCodes(L, k + 1);
        DecodeAgrees(L, B, C, p + 1, k + 1, v');
      }
    }
  }

  lemma SymbolAgrees(L: seq<nat>, B: Bits, C: Bits, p: nat)
    requires B <= C
    ensures Decode(L, B, p).Got? ==> Decode(L, C, p) == Decode(L, B, p)
  {
    hide DecodeFrom, First;
    FirstOfOne(L);
    DecodeAgrees(L, B, C, p, 0, 0);
  }

  lemma BitsAgree(B: Bits, C: Bits, p: nat, n: nat)
    requires B <= C
    ensures ReadBits(B, p, n).Got? ==> ReadBits(C, p, n) == ReadBits(B, p, n)
  {
    if p + n <= |B| {
      assert B[p..p + n] == C[p..p + n];
    }
  }

  lemma {:induction false} CodeLengthsAgree(B: Bits, C: Bits, p: nat, i: nat, hclen: nat, lens: seq<nat>)
    requires B <= C && i <= hclen <= 19 && |lens| == 19
    ensures var r := CodeLengthLengths(B, p, i, hclen, lens);
      r != NoLengths ==> CodeLengthLengths(C, p, i, hclen, lens) == r
    decreases hclen - i
  {
    hide FromBits;
    Tinflate.CodeLengthsStep(B, p, i, hclen, lens);
    if i < hclen {
      BitsAgree(B, C, p, 3);
      match ReadBits(B, p, 3)
      case Starved =>
      case Got(v, q) => CodeLengthsAgree(B, C, q, i + 1, hclen, lens[CLCIDX[i] := v]);
    }
  }

  lemma {:induction false} RunLengthsAgree(B: Bits, C: Bits, p: nat, cl: seq<nat>, lens: seq<nat>, limit: nat)
    requires B <= C && |cl| == 19
    ensures var r := RunLengths(B, p, cl, lens, limit); r != NoLengths ==> RunLengths(C, p, cl, lens, limit) == r
    decreases limit - |lens|
  {
    hide FromBits, Decode;
    if |lens| < limit {
      SymbolAgrees(cl, B, C, p);
      match Decode(cl, B, p)
      case Starved =>
      case Got(sym, q) =>
        if sym < 0 || (sym == 16 && lens == []) {
        } else if sym < 16 {
          RunLengthsAgree(B, C, q, cl, lens + [sym], limit);
        } else {
          BitsAgree(B, C, q, RunBits(sym));
          match ReadBits(B, q, RunBits(sym))
          case Starved =>
          case Got(x, r) =>
            var length := x as nat + RunBase(sym);
            if |lens| + length <= limit {
              RunLengthsAgree(B, C, r, cl, lens + Repeat(RunFill(sym, lens), length), limit);
            }
        }
    }
  }

  lemma TreesFromAgree(B: Bits, C: Bits, p: nat, hlit: nat, hdist: nat, hclen: nat)
    requires B <= C && hclen <= 19
    ensures Tinflate.TreesFrom(B, p, hlit, hdist, hclen) != NoTrees ==>
      Tinflate.TreesFrom(C, p, hlit, hdist, hclen) == Tinflate.TreesFrom(B, p, hlit, hdist, hclen)
  {
    hide Tinflate.TreesFrom, CodeLengthLengths, RunLengths;
    Tinflate.TreesAre(B, p, hlit, hdist, hclen);
    Tinflate.TreesAre(C, p, hlit, hdist, hclen);
    CodeLengthsAgree(B, C, p, 0, hclen, Repeat(0, 19));
    NeverBad(B, p, 0, hclen, Repeat(0, 19));
    var cl := CodeLengthLengths(B, p, 0, hclen, Repeat(0, 19));
    if cl.GotLengths? && |cl.lens| == 19 {
      RunLengthsAgree(B, C, cl.pos, cl.lens, [], hlit + hdist);
    }
  }

  lemma {:induction false} NeverBad(B: Bits, p: nat, i: nat, hclen: nat, lens: seq<nat>)
    requires i <= hclen <= 19 && |lens| == 19
    ensures CodeLengthLengths(B, p, i, hclen, lens) != BadLengths
    decreases hclen - i
  {
    hide FromBits;
    if i < hclen {
      match ReadBits(B, p, 3)
      case Starved =>
      case Got(v, q) => NeverBad(B, q, i + 1, hclen, lens[CLCIDX[i] := v]);
    }
  }

  lemma TreesAgree(B: Bits, C: Bits, p: nat)
    requires B <= C
    ensures DynamicTrees(B, p) != NoTrees ==> DynamicTrees(C, p) == DynamicTrees(B, p)
  {
    hide ReadBits, DynamicTrees, Tinflate.TreesFrom;
    Tinflate.ThreeReads(B, p);
    Tinflate.ThreeReads(C, p);
    BitsAgree(B, C, p, 5);
    var a := ReadBits(B, p, 5);
    if a.Got? {
      BitsAgree(B, C, a.pos, 5);
      var b := ReadBits(B, a.pos, 5);
      if b.Got? {
        BitsAgree(B, C, b.pos, 4);
        var c := ReadBits(B, b.pos, 4);
        if c.Got? { TreesFromAgree(B, C, p + 14, a.val + 257, b.val + 1, c.val + 4); }
      }
    }
  }

  /** Ways to stop that may be due to the end of the source. */
  predicate CutOff(st: Status) { st == Truncated || st == Exhausted || st == Undefined }

  ghost predicate Agree(m: Step, n: Step) {
    m == n || (m.Stop? && CutOff(m.status))
  }

  lemma MatchAgrees(B: Bits, C: Bits, s: State, w: Window, p: nat, len: nat)
    requires B <= C && len > 0 && (w.Ring? ==> |s.hist| >= w.size)
    ensures Agree(MatchStep(B, s, w, p, len), MatchStep(C, s, w, p, len))
  {
    hide ReadBits, Decode;
    SymbolAgrees(s.dst, B, C, p);
    match Decode(s.dst, B, p)
    case Starved =>
    case Got(d, q) =>
      if 0 <= d < 30 { BitsAgree(B, C, q, Tables.DIST_BITS[d]); }
  }

  lemma SymbolStepAgrees(B: Bits, C: Bits, s: State, w: Window, sym: int, p: nat)
    requires B <= C && (w.Ring? ==> |s.hist| >= w.size)
    ensures Agree(SymbolStep(B, s, w, sym, p), SymbolStep(C, s, w, sym, p))
  {
    hide FromBits, MatchStep;
    if 257 <= sym < 286 {
      Tables.LengthRow(sym - 257);
      var n := Tables.LENGTH_BITS[sym - 257];
      BitsAgree(B, C, p, n);
      match ReadBits(B, p, n)
      case Starved =>
      case Got(x, q) => MatchAgrees(B, C, s, w, q, Tables.LENGTH_BASE[sym - 257] + x);
    }
  }

  lemma StoredAgrees(B: Bits, C: Bits, s: State)
    requires B <= C && s.curlen > 0
    ensures Agree(StoredByte(B, s), StoredByte(C, s))
  {
    hide ReadBits;
    BitsAgree(B, C, s.pos, 8);
  }

  lemma StoredStepAgrees(B: Bits, C: Bits, s: State)
    requires B <= C
    ensures Agree(StoredStep(B, s), StoredStep(C, s))
  {
    hide FromBits, StoredByte;
    if s.curlen > 0 {
      StoredAgrees(B, C, s);
    } else {
      BitsAgree(B, C, Align(s.pos), 16);
      match ReadBits(B, Align(s.pos), 16)
      case Starved =>
      case Got(len, q) =>
        BitsAgree(B, C, q, 16);
        match ReadBits(B, q, 16)
        case Starved =>
        case Got(inv, r) =>
          if len == 0xFFFF - inv { StoredAgrees(B, C, s.(pos := r, curlen := len as nat + 1)); }
    }
  }

  lemma OpenAgrees(B: Bits, C: Bits, s: State)
    requires B <= C
    ensures Agree(OpenStep(B, s), OpenStep(C, s))
  {
    hide DynamicTrees, FromBits, FixedLit, FixedDist;
    if s.pos + 3 <= |B| {
      assert B[s.pos + 1..s.pos + 3] == C[s.pos + 1..s.pos + 3] && B[s.pos] == C[s.pos];
      TreesAgree(B, C, s.pos + 3);
    }
  }

  lemma MicroAgrees(B: Bits, C: Bits, s: State, w: Window)
    requires WellFormed(s, w) && B <= C
    ensures Agree(Micro(B, s, w), Micro(C, s, w))
  {
    hide OpenStep, StoredStep, SymbolStep, Decode, Lengths;
    if s.btype == -1 {
      OpenAgrees(B, C, s);
    } else if s.btype == 0 {
      StoredStepAgrees(B, C, s);
    } else if s.btype in {1, 2} && s.curlen == 0 {
      SymbolAgrees(s.lit, B, C, s.pos);
      match Decode(s.lit, B, s.pos)
      case Starved =>
      case Got(sym, p) => SymbolStepAgrees(B, C, s, w, sym, p);
    }
  }

  /** Inflating a part of a source either comes to the same as inflating all of it, or it stops
      with some of the same output and does not claim to be done. */
  lemma {:induction false} AllAgrees(B: Bits, C: Bits, s: State, w: Window)
    requires WellFormed(s, w) && s.pos <= |B| && B <= C
    ensures var r := All(B, s, w);
      && r.1.hist <= All(C, s, w).1.hist && r.1.pos <= |B|
      && (r == All(C, s, w) || CutOff(r.0))
    decreases |B| - s.pos, s.curlen, Order(s)
  {
    hide Micro, Lengths;
    MicroProgress(B, s, w);
    MicroProgress(C, s, w);
    MicroAgrees(B, C, s, w);
    StopStays(B, s, w);
    match Micro(B, s, w)
    case Silent(s') => AllAgrees(B, C, s', w);
    case Byte(s') => AllAgrees(B, C, s', w);
    case Stop(st, s') => AllKeeps(C, s, w);
  }

  lemma StopStays(B: Bits, s: State, w: Window)
    requires WellFormed(s, w) && s.pos <= |B|
    ensures var m := Micro(B, s, w); m.Stop? ==> m.s.hist == s.hist && m.s.pos <= |B|
  {
    hide OpenStep, StoredStep, SymbolStep, Decode, Lengths;
    Tinflate.MicroStopKeeps(B, s, w);
    if s.btype == -1 {
      OpenStops(B, s);
    } else if s.btype == 0 {
      StoredStops(B, s);
    } else if s.btype in {1, 2} && s.curlen == 0 {
      SymbolEnds(s.lit, B, s.pos);
      match Decode(s.lit, B, s.pos)
      case Starved =>
      case Got(sym, p) => SymbolStops(B, s, w, sym, p);
    }
  }

  lemma OpenStops(B: Bits, s: State)
    ensures var m := OpenStep(B, s); m.Stop? ==> m.s == s
  {
    hide FromBits, DynamicTrees, FixedLit, FixedDist;
  }

  lemma StoredStops(B: Bits, s: State)
    requires s.pos <= |B|
    ensures var m := StoredStep(B, s); m.Stop? ==> m.s.pos <= |B|
  {
    hide FromBits;
  }

  lemma SymbolEnds(L: seq<nat>, B: Bits, p: nat)
    ensures var r := Decode(L, B, p); r.Got? ==> r.pos <= |B|
  {
    FirstOfOne(L);
    DecodeReads(L, B, p, 0, 0);
  }

  lemma SymbolStops(B: Bits, s: State, w: Window, sym: int, p: nat)
    requires (w.Ring? ==> |s.hist| >= w.size) && s.pos <= |B| && p <= |B|
    ensures var m := SymbolStep(B, s, w, sym, p); m.Stop? ==> m.s.pos <= |B|
  {
    hide FromBits, Decode, Tables.DIST_BITS, Tables.DIST_BASE, Tables.LENGTH_BITS, Tables.LENGTH_BASE;
  }

  /** A source that begins like a member for `src`, up to the end of the compressed data. */
  ghost predicate Framed(dst: seq<byte>, tail: seq<byte>, src: seq<byte>, cs: seq<Chunk>) {
    dst == LZ_HEADER + Bytes(cs) + tail && Chunks(cs, true, DICT_SIZE) && Data(cs) == src
  }

  /** The first four bytes after the compressed data are the checksum of `src`. */
  predicate SumMatches(tail: seq<byte>, src: seq<byte>)
    requires |tail| >= 4
  {
    Gzip.FromLe32(tail[..4]) == Gzip.Value(!Checksum.Crc(Gzip.CRC_START, src))
  }

  /** With any trailer at all the same bytes are put out. With four bytes of it or more it is
      accepted if and only if these are the checksum, and success is reported in either case;
      the length that follows is not looked at, nor need it be there. */
  lemma TrailerDecides(dst: seq<byte>, tail: seq<byte>, src: seq<byte>, cs: seq<Chunk>, w: Window, prefill: seq<byte>,
                       u: GzUnpacker, res: int, ok: bool)
    requires Framed(dst, tail, src, cs) && Suits(w, prefill) && u.out.buffer.Length > 0
    ensures Header(dst).Start? && Outcome(dst, w, prefill).0 == Done && |prefill| <= |Outcome(dst, w, prefill).1.hist|
    ensures var r := Outcome(dst, w, prefill);
      Result(r, dst, r.1.hist[|prefill|..], u, res, ok) && |tail| >= 4 ==>
        && u.out.file == src && (ok <==> src != [])
        && res == if SumMatches(tail, src) then 1 else Gzip.TINF_CHKSUM_ERROR
  {
    hide All, Bytes, Data, Chunks, LZ_HEADER, Header, BytesBits, Align, Checksum.Crc, Gzip.Value, Gzip.FromLe32;
    BodyInflates(dst, tail, src, cs, prefill, w);
    assert (prefill + src)[|prefill|..] == src;
    if |tail| >= 4 {
      var i := 10 + |Bytes(cs)|;
      assert dst[i..i + 4] == dst[i..][..4] == tail[..4];
    }
  }

  /** A member that lacks its last bytes. Unless the compressed data are all there, inflating
      what there is does not come to an end, and puts out nothing but a part of the source. */
  lemma CutMember(dst: seq<byte>, src: seq<byte>, cs: seq<Chunk>, w: Window, prefill: seq<byte>, n: nat)
    requires Member(dst, src, cs) && Suits(w, prefill) && 10 <= n <= |dst|
    ensures Header(dst[..n]) == Start(10)
    ensures var r := Outcome(dst[..n], w, prefill);
      && prefill <= r.1.hist <= prefill + src
      && (if n < 10 + |Bytes(cs)| then CutOff(r.0) else r.0 == Done && r.1.hist == prefill + src)
  {
    hide All, Bytes, Data, Chunks, LZ_HEADER, Header, BytesBits, Align, Footer, Lengths;
    var part := dst[..n];
    MemberInflates(dst, src, cs, prefill, w);
    HeaderLength(src);
    PartStarts(dst, cs, src, n);
    assert part + dst[n..] == dst;
    BytesBitsConcat(part, dst[n..]);
    AllAgrees(BytesBits(part), BytesBits(dst), Initial(80, prefill), w);
    AllKeeps(BytesBits(part), Initial(80, prefill), w);
    if n >= 10 + |Bytes(cs)| {
      PartFramed(dst, src, cs, n);
      BodyInflates(part, part[10 + |Bytes(cs)|..], src, cs, prefill, w);
    } else {
      EndsWithin(All(BytesBits(part), Initial(80, prefill), w).1.pos, n);
    }
  }

  lemma EndsWithin(pos: nat, n: nat)
    requires pos <= 8 * n
    ensures Align(pos) / 8 <= n
  {}

  lemma PartStarts(dst: seq<byte>, cs: seq<Chunk>, src: seq<byte>, n: nat)
    requires dst == LZ_HEADER + Bytes(cs) + Footer(src) && 10 <= n <= |dst|
    ensures Header(dst[..n]) == Start(10)
  {
    hide Header, LZ_HEADER, Footer, Bytes;
    HeaderLength(src);
    assert dst[..n] == LZ_HEADER + dst[10..n];
    LzHeaderParses(dst[10..n]);
  }

  lemma PartFramed(dst: seq<byte>, src: seq<byte>, cs: seq<Chunk>, n: nat)
    requires Member(dst, src, cs) && 10 + |Bytes(cs)| <= n <= |dst|
    ensures Framed(dst[..n], dst[..n][10 + |Bytes(cs)|..], src, cs)
  {
    hide LZ_HEADER, Footer, Bytes, Chunks, Data;
    HeaderLength(src);
  }

  /** Any member with one byte of its checksum changed: the data come out, and success is
      reported in spite of the checksum error. */
  method WrongSum(src: seq<byte>, k: nat, x: byte, dict: array<byte>, outputBufferSize: nat)
    returns (u: GzUnpacker, res: int, ok: bool)
    requires |src| > 0 && outputBufferSize > 0 && (dict.Length == 0 || dict.Length >= DICT_SIZE) && k < 4 && x > 0
    modifies dict
    ensures u.out.file == src && res == Gzip.TINF_CHKSUM_ERROR && ok
  {
    hide Result, Outcome, Member, Framed, Header, DICT_SIZE, Checksum.Crc, SumMatches;
    ghost var w, prefill := WindowOf(dict), dict[..];
    var dst, total, cs := Compress(src);
    var i := |dst| - 8 + k;
    SumChanged(dst, src, cs, k, x);
    var damaged := dst[i := (dst[i] + x) % 256];
    ghost var tail := damaged[|dst| - 8..];
    TrailerStarts(damaged, tail, src, cs, w, prefill);
    u, res, ok := GzUncompress(damaged, dict, outputBufferSize);
    TrailerDecides(damaged, tail, src, cs, w, prefill, u, res, ok);
  }

  lemma TrailerStarts(dst: seq<byte>, tail: seq<byte>, src: seq<byte>, cs: seq<Chunk>, w: Window, prefill: seq<byte>)
    requires Framed(dst, tail, src, cs) && Suits(w, prefill)
    ensures Header(dst).Start? && Tinflate.Decided(Outcome(dst, w, prefill).0)
  {
    hide All, Bytes, Data, Chunks, LZ_HEADER, Header, BytesBits, Align;
    BodyInflates(dst, tail, src, cs, prefill, w);
  }

  /** Another byte in the checksum makes it another checksum. */
  lemma SumChanged(dst: seq<byte>, src: seq<byte>, cs: seq<Chunk>, k: nat, x: byte)
    requires Member(dst, src, cs) && k < 4 && x > 0
    ensures |dst| >= 18
    ensures var damaged := dst[|dst| - 8 + k := (dst[|dst| - 8 + k] + x) % 256];
      var tail := damaged[|dst| - 8..];
      |tail| == 8 && Framed(damaged, tail, src, cs) && !SumMatches(tail, src)
  {
    hide Bytes, Data, Chunks, LZ_HEADER, Checksum.Crc, Gzip.Value, Gzip.Le32, Gzip.FromLe32;
    HeaderLength(src);
    var v := Gzip.Value(!Checksum.Crc(Gzip.CRC_START, src));
    Gzip.Le32RoundTrip(v);
    var damaged := dst[|dst| - 8 + k := (dst[|dst| - 8 + k] + x) % 256];
    var tail := damaged[|dst| - 8..];
    assert tail[..4] == Gzip.Le32(v)[k := (Gzip.Le32(v)[k] + x) % 256];
    OtherNumber(Gzip.Le32(v), tail[..4], k);
    assert damaged == LZ_HEADER + Bytes(cs) + tail;
  }

  lemma OtherNumber(a: seq<byte>, b: seq<byte>, k: nat)
    requires |a| == |b| == 4 && k < 4 && b == a[k := b[k]] && b[k] != a[k]
    ensures Gzip.FromLe32(a) != Gzip.FromLe32(b)
  {}
}
