/** The decompression loop of gzUncompress: one byte at a time into an output buffer that
    is written to the output file whenever it is full. */
module GzUnpack {
  import opened Bits
  import opened Checksum
  import opened Chunked
  import opened Gzip
  import opened GzPack
  import opened GzHeader
  import opened History
  import opened Huffman
  import opened Inflate
  import opened Tinflate

  /** Where the source file's globals are kept. */
  class GzUnpacker {
    const z: GzInflater
    const out: GzOutput

    constructor (source: seq<byte>, dict: array<byte>, outputBufferSize: nat)
      requires outputBufferSize > 0
      ensures out.buffer.Length == outputBufferSize
      ensures Fresh(source, dict) && fresh(out) && fresh(out.buffer) && fresh(z) && fresh(z.d) && fresh(z.d.ring)
      ensures fresh(z.d.ltree.table) && fresh(z.d.ltree.trans) && fresh(z.d.dtree.table) && fresh(z.d.dtree.trans)
    {
      var ring := new DictRing(dict);
      var o := new GzOutput(outputBufferSize);
      var d := new TinfData(source, ring, if dict.Length > 0 then null else o, o.buffer);
      out := o;
      z := new GzInflater(d, 1);
    }

    /** Nothing has been read or written. */
    ghost predicate Fresh(source: seq<byte>, dict: array<byte>)
      reads z, out, z.d, z.d.ring, dict
    {
      && z.destSize == 1 && z.d.source == source && z.d.srcPos == 0 && z.d.readSourceErrors == 0
      && z.d.dest == out.buffer && out.position == 0 && out.file == [] && out.buffer.Length > 0
      && z.d.ring.ring == dict != out.buffer && z.d.ring.size == dict.Length
      && (dict.Length > 0 ==> z.d.ring.Holds(dict[..]))
      && z.d.output == (if dict.Length > 0 then null else out) && z.d.TreesApart()
    }

    /** Inflation has come to `t`, and all output since `prefill` is in the file or in the buffer. */
    ghost predicate At(t: State, prefill: seq<byte>)
      reads z, out, out.buffer, z.d, z.d.ring, z.d.ring.ring,
            z.d.ltree, z.d.ltree.table, z.d.ltree.trans, z.d.dtree, z.d.dtree.table, z.d.dtree.trans
    {
      && z.destSize == 1 && z.d.dest == out.buffer && out.Whole()
      && Inflating(t) && OneHistory(t, prefill) && z.checksum == Crc32(Crc(CRC_START, out.Written()))
    }

    ghost predicate Inflating(t: State)
      reads z.d, z.d.ring, z.d.ltree, z.d.ltree.table, z.d.ltree.trans, z.d.dtree, z.d.dtree.table, z.d.dtree.trans
    {
      && WellFormed(t, z.d.W()) && z.d.Positioned(t.pos) && z.d.TreesFor(t) && z.d.Flags(t) && z.d.MatchAt(t)
      && z.d.btype == t.btype && t.pos <= |z.d.Src()|
    }

    /** The ring, or else the file and the buffer, hold the history. */
    ghost predicate OneHistory(t: State, prefill: seq<byte>)
      reads out, out.buffer, z.d, z.d.ring, z.d.ring.ring
    {
      && out.position <= out.buffer.Length
      && prefill <= t.hist && out.Written() == t.hist[|prefill|..]
      && (if z.d.ring.size > 0 then z.d.output == null && z.d.ring.ring != out.buffer && z.d.ring.Holds(t.hist)
          else z.d.output == out && prefill == [])
    }

    /** With `dest` at the end of the buffer's contents, the inflater can go on. */
    lemma CanGoOn(t: State, prefill: seq<byte>)
      requires At(t, prefill) && z.d.destPos == out.position
      ensures z.d.Rep(t) && z.d.btype == t.btype && t.pos <= |z.d.Src()| && WellFormed(t, z.d.W())
      ensures z.d.output != null ==> z.d.output == out
      ensures z.destSize == 1 && z.d.dest == out.buffer && out.Whole()
      ensures out.Written() == t.hist[|prefill|..] && z.checksum == Crc32(Crc(CRC_START, out.Written()))
      ensures prefill <= t.hist
    {
      hide TinfTree.Codes, Lengths, BytesBits, Crc;
    }

    /** The return code tells whether there is a byte, which is then at the old position. */
    lemma OneByteOut(r: (Status, State), res: int, u: State, t: State, base: seq<byte>, c: Running)
      requires z.Checked(r, res, u, t, base, c) && Decided(r.0) && t.hist <= r.1.hist
      requires |r.1.hist| == |t.hist| + if r.0 == Ok then 1 else 0
      ensures |base| <= z.d.destPos <= z.d.dest.Length && z.d.dest[..|base|] == base
      ensures res == 0 <==> r.0 == Ok
      ensures res == 0 ==> z.d.destPos == |base| + 1 && u == r.1 && r.1.hist == t.hist + [z.d.dest[|base|]]
      ensures res == 0 ==> z.checksum == Updated(c, [z.d.dest[|base|]]) && z.d.Rep(u) && z.d.btype == u.btype
      ensures r.0 == Done ==> z.checksum == Updated(c, []) && z.Verdict(r.1.pos, z.checksum, res)
      ensures r.0 != Done && r.0 != Ok ==> Failure(r.0, res)
    {
      hide TinfData.Rep, Updated;
      if r.0 != Truncated {
        var all := z.d.dest[..z.d.destPos];
        assert z.d.dest[..|base|] == all[..|base|] == base;
      }
      if r.0 == Ok {
        var all := z.d.dest[..z.d.destPos];
        assert r.1.hist == t.hist + r.1.hist[|t.hist|..];
        assert [z.d.dest[|base|]] == all[|base|..] == r.1.hist[|t.hist|..];
      }
    }

    /** The return code of a stream that did not end, and whether a read has failed. */
    ghost predicate Failure(st: Status, res: int)
      reads z.d`readSourceErrors
    {
      if st == Truncated then (res == TINF_DATA_ERROR || res == TINF_DICT_ERROR) && z.d.readSourceErrors > 0
      else res == StatusCode(st) && z.d.readSourceErrors == 0
    }

    lemma Onward(u: State)
      requires z.d.Rep(u) && z.d.btype == u.btype && u.pos <= |z.d.Src()|
      ensures Inflating(u) && (z.d.ring.size > 0 ==> z.d.ring.ring != z.d.dest && z.d.ring.Holds(u.hist))
    {
      hide TinfTree.Codes, Lengths, BytesBits;
    }

    lemma ChecksumGrows(w: seq<byte>, b: seq<byte>)
      ensures Updated(Crc32(Crc(CRC_START, w)), b) == Crc32(Crc(CRC_START, w + b))
      ensures w + [] == w
    {
      CrcConcat(CRC_START, w, b);
    }

    lemma WrittenIs(base: seq<byte>)
      requires out.position == |base| <= out.buffer.Length && out.buffer[..|base|] == base
      ensures out.Written() == out.file + base
    {}

    /** Counts the byte just inflated. */
    method KeepByte(ghost u: State, ghost prefill: seq<byte>, ghost h: seq<byte>)
      requires z.destSize == 1 && z.d.dest == out.buffer && out.Whole()
      requires Inflating(u) && u.hist == h + [out.buffer[out.position]]
      requires prefill <= h && out.Written() == h[|prefill|..]
      requires z.checksum == Crc32(Crc(CRC_START, out.Written() + [out.buffer[out.position]]))
      requires if z.d.ring.size > 0 then z.d.output == null && z.d.ring.ring != out.buffer && z.d.ring.Holds(u.hist)
               else z.d.output == out && prefill == []
      modifies out`file, out`position
      ensures At(u, prefill)
      ensures out.file == old(out.file) + if out.position == 0 then out.buffer[..] else []
    {
      hide Crc, Inflating, GzOutput.Written, DictRing.Holds;
      out.Advance();
    }

    lemma Window(t: State, prefill: seq<byte>)
      requires At(t, prefill)
      ensures if z.d.ring.size > 0 then z.d.output == null else z.d.output == out && prefill == []
    {
      hide Inflating, Crc;
    }

    /** One turn of the loop. */
    method Step(ghost t: State, ghost prefill: seq<byte>) returns (res: int, ghost u: State)
      requires At(t, prefill) && WellFormed(t, z.d.W()) && t.pos <= |z.d.Src()|
      requires Decided(Run(z.d.Src(), t, z.d.W(), 1).0)
      modifies z`checksum, z.d, out.buffer, z.d.ring, z.d.ring.ring, z.d.ltree.table, z.d.ltree.trans,
               z.d.dtree.table, z.d.dtree.trans, out`file, out`position
      ensures Stepped(Run(z.d.Src(), t, z.d.W(), 1), res, u, prefill, old(out.Written()))
      ensures out.file == old(out.file) + if res == 0 && out.position == 0 then out.buffer[..] else []
    {
      hide Run, Crc, BytesBits, Lengths, TinfTree.Codes;
      z.d.destPos := out.position;
      CanGoOn(t, prefill);
      OneStep(z.d.Src(), t, z.d.W());
      Window(t, prefill);
      ghost var r, base, c := Run(z.d.Src(), t, z.d.W(), 1), out.buffer[..out.position], z.checksum;
      ghost var w := out.Written();
      WrittenIs(base);
      ChecksumGrows(w, []);
      hide *;
      res, u := z.UncompressChksum(t);
      OneByteOut(r, res, u, t, base, c);
      WrittenIs(base);
      if res == 0 {
        ChecksumGrows(w, [out.buffer[out.position]]);
        Onward(u);
        KeepByte(u, prefill, t.hist);
      }
    }

    ghost predicate Stepped(r: (Status, State), res: int, u: State, prefill: seq<byte>, before: seq<byte>)
      reads z, out, out.buffer, z.d, z.d.ring, z.d.ring.ring,
            z.d.ltree, z.d.ltree.table, z.d.ltree.trans, z.d.dtree, z.d.dtree.table, z.d.dtree.trans
    {
      if r.0 == Ok then res == 0 && u == r.1 && At(u, prefill)
      else
        && res != 0 && out.Whole() && out.Written() == before
        && (r.0 == Done ==> z.Verdict(r.1.pos, Crc32(Crc(CRC_START, before)), res))
        && (r.0 != Done ==> Failure(r.0, res))
    }

    /** The header, up to where the loop begins. */
    method Begin(source: seq<byte>, dict: array<byte>) returns (res: int)
      requires Fresh(source, dict) && Header(source) != Cut
      modifies z`checksum, z.d, z.d.ring`idx
      ensures Header(source).NotGzip? ==> res == TINF_DATA_ERROR
      ensures Header(source).Start? ==> res == 0 && At(Initial(8 * Header(source).pos, dict[..]), dict[..])
    {
      hide Header, BytesBits;
      res := z.ParseHeader();
      if res == 0 {
        z.d.UncompressInit();
        NothingYet();
        assert dict[..] == dict[..] + [];
      }
    }

    lemma NothingYet()
      ensures Crc(CRC_START, []) == CRC_START
    {}

    /** How the loop ends when the whole stream comes to `r`. */
    ghost predicate Ended(r: (Status, State), res: int, prefill: seq<byte>)
      reads z, out, out.buffer, z.d
    {
      && out.Whole() && prefill <= r.1.hist && out.Written() == r.1.hist[|prefill|..]
      && (r.0 == Done ==> z.Verdict(r.1.pos, Crc32(Crc(CRC_START, out.Written())), res))
      && (r.0 != Done ==> Failure(r.0, res))
    }

    lemma LastStep(r: (Status, State), res: int, u: State, t: State, prefill: seq<byte>, before: seq<byte>)
      requires Stepped(r, res, u, prefill, before) && r.0 != Ok && r.1.hist == t.hist
      requires prefill <= t.hist && before == t.hist[|prefill|..]
      ensures Ended(r, res, prefill)
    {
      hide Crc, GzInflater.Verdict;
    }

    lemma StepGives(r: (Status, State), res: int, u: State, prefill: seq<byte>, before: seq<byte>)
      requires Stepped(r, res, u, prefill, before)
      ensures res == 0 <==> r.0 == Ok
      ensures r.0 == Ok ==> u == r.1 && At(u, prefill)
    {
      hide Crc, GzInflater.Verdict, At;
    }

    lemma HistorySoFar(t: State, prefill: seq<byte>)
      requires At(t, prefill)
      ensures WellFormed(t, z.d.W()) && t.pos <= |z.d.Src()| && out.position < out.buffer.Length
      ensures prefill <= t.hist && out.Written() == t.hist[|prefill|..]
    {
      hide Crc, BytesBits, TinfTree.Codes, Lengths;
    }

    /** The loop. */
    method Loop(ghost s: State, ghost prefill: seq<byte>) returns (res: int)
      requires At(s, prefill) && WellFormed(s, z.d.W()) && s.pos <= |z.d.Src()|
      requires Decided(All(z.d.Src(), s, z.d.W()).0)
      modifies z`checksum, z.d, out.buffer, z.d.ring, z.d.ring.ring, z.d.ltree.table, z.d.ltree.trans,
               z.d.dtree.table, z.d.dtree.trans, out`file, out`position
      ensures Ended(All(z.d.Src(), s, z.d.W()), res, prefill)
    {
      ghost var r, t := All(z.d.Src(), s, z.d.W()), s;
      hide *;
      while true
        invariant At(t, prefill) && WellFormed(t, z.d.W()) && t.pos <= |z.d.Src()|
        invariant All(z.d.Src(), t, z.d.W()) == r && Decided(r.0)
        decreases |r.1.hist| - |t.hist|
      {
        res, t := Turn(t, prefill, r);
        if res != 0 {
          return;
        }
      }
    }

    /** One turn of the loop, on the way to `r`. */
    method Turn(ghost t: State, ghost prefill: seq<byte>, ghost r: (Status, State)) returns (res: int, ghost u: State)
      requires At(t, prefill) && WellFormed(t, z.d.W()) && t.pos <= |z.d.Src()|
      requires All(z.d.Src(), t, z.d.W()) == r && Decided(r.0)
      modifies z`checksum, z.d, out.buffer, z.d.ring, z.d.ring.ring, z.d.ltree.table, z.d.ltree.trans,
               z.d.dtree.table, z.d.dtree.trans, out`file, out`position
      ensures out.file == old(out.file) + if res == 0 && out.position == 0 then out.buffer[..] else []
      ensures if res != 0 then Ended(r, res, prefill)
              else
                && At(u, prefill) && WellFormed(u, z.d.W()) && u.pos <= |z.d.Src()|
                && All(z.d.Src(), u, z.d.W()) == r && |t.hist| < |u.hist| <= |r.1.hist|
    {
      hide *;
      AllStep(z.d.Src(), t, z.d.W());
      HistorySoFar(t, prefill);
      OneStep(z.d.Src(), t, z.d.W());
      ghost var m, before := Run(z.d.Src(), t, z.d.W(), 1), out.Written();
      res, u := Step(t, prefill);
      StepGives(m, res, u, prefill, before);
      if res != 0 {
        LastStep(m, res, u, t, prefill, before);
      }
    }
  }

  /** The inflater of `source` with `dict` for a ring, or without one if it is empty. */
  function WindowOf(dict: array<byte>): Window {
    if dict.Length > 0 then Ring(dict.Length) else File
  }

  /** What the data after the header come to. */
  ghost function Outcome(source: seq<byte>, w: Window, prefill: seq<byte>): (r: (Status, State))
    requires Header(source).Start? && (w.Ring? ==> w.size <= |prefill|)
  {
    All(BytesBits(source), Initial(8 * Header(source).pos, prefill), w)
  }

  /** gzUncompress without a tar callback: the last return code of the inflater, and
      whether success is reported. */
  method GzUncompress(source: seq<byte>, dict: array<byte>, outputBufferSize: nat)
    returns (u: GzUnpacker, res: int, ok: bool)
    requires outputBufferSize > 0 && Header(source) != Cut
    requires Header(source).Start? ==> Decided(Outcome(source, WindowOf(dict), dict[..]).0)
    modifies dict
    ensures u.z.d.source == source && u.out.buffer.Length == outputBufferSize
    ensures Header(source).NotGzip? ==> res == TINF_DATA_ERROR && !ok
    ensures Header(source).Start? ==>
      var r := Outcome(source, WindowOf(dict), old(dict[..]));
      dict.Length <= |r.1.hist| && Result(r, source, r.1.hist[dict.Length..], u, res, ok)
  {
    hide Header, All, Lengths, Accepts, Crc, BytesBits;
    u := new GzUnpacker(source, dict, outputBufferSize);
    hide *;
    ghost var prefill := dict[..];
    res := u.Begin(source, dict);
    if res != 0 {
      return u, res, false;
    }
    ghost var s, r := Initial(8 * Header(source).pos, prefill), Outcome(source, WindowOf(dict), prefill);
    res := u.Loop(s, prefill);
    if res != 1 && u.z.d.readSourceErrors > 0 {
      EndedShort(u, r, res, prefill, source);
      return u, res, false;
    }
    EndedWell(u, r, res, prefill, source);
    u.out.Flush();
    ok := u.out.file != [];
    ResultIs(u, r, res, prefill, source, ok);
  }

  /** Why a stream that comes to `r` with output `data` makes the inflater return `res`. */
  ghost predicate Returns(r: (Status, State), source: seq<byte>, data: seq<byte>, res: int) {
    match r.0
    case Done =>
      var i, c := Align(r.1.pos) / 8, Crc32(Crc(CRC_START, data));
      if i + 4 > |source| then res == 1 || res == TINF_CHKSUM_ERROR
      else res == if Accepts(c, source, i) then 1 else TINF_CHKSUM_ERROR
    case Truncated => res == TINF_DATA_ERROR || res == TINF_DICT_ERROR
    case st => res == StatusCode(st)
  }

  /** The source ends early and the inflater does not return TINF_DONE. */
  ghost predicate ReadFails(r: (Status, State), source: seq<byte>, res: int) {
    r.0 == Truncated || (r.0 == Done && Align(r.1.pos) / 8 + 4 > |source| && res != 1)
  }

  /** If a read has failed, success is not reported and the file lacks what was left in the
      buffer. Else the file has all output `data`, success is reported just when there is any,
      and a trailer that is there and accepted is used up. */
  ghost predicate Result(r: (Status, State), source: seq<byte>, data: seq<byte>, u: GzUnpacker, res: int, ok: bool)
    requires u.out.buffer.Length > 0
    reads u.out, u.z.d`srcPos
  {
    && Returns(r, source, data, res)
    && if ReadFails(r, source, res) then !ok && u.out.file == data[..|data| - |data| % u.out.buffer.Length]
       else
         && u.out.file == data && (ok <==> data != [])
         && (r.0 == Done && res == 1 && Align(r.1.pos) / 8 + 8 <= |source| ==> u.z.d.srcPos == Align(r.1.pos) / 8 + 8)
  }

  lemma EndedReturns(u: GzUnpacker, r: (Status, State), res: int, prefill: seq<byte>, source: seq<byte>)
    requires u.Ended(r, res, prefill) && u.z.d.source == source && r.0 != Ok
    ensures var data := r.1.hist[|prefill|..];
      && Returns(r, source, data, res)
      && (ReadFails(r, source, res) <==> res != 1 && u.z.d.readSourceErrors > 0)
      && (r.0 == Done && res == 1 && Align(r.1.pos) / 8 + 8 <= |source| ==> u.z.d.srcPos == Align(r.1.pos) / 8 + 8)
  {
    hide Crc, Align, Value, FromLe32, GzOutput.Written, GzOutput.Whole;
  }

  lemma EndedShort(u: GzUnpacker, r: (Status, State), res: int, prefill: seq<byte>, source: seq<byte>)
    requires u.Ended(r, res, prefill) && u.z.d.source == source && r.0 != Ok
    requires res != 1 && u.z.d.readSourceErrors > 0
    ensures |prefill| <= |r.1.hist| && u.out.buffer.Length > 0
    ensures Result(r, source, r.1.hist[|prefill|..], u, res, false)
  {
    hide Crc, Align, GzInflater.Verdict, Returns, ReadFails, GzOutput.Written;
    EndedReturns(u, r, res, prefill, source);
    u.out.FileIs();
  }

  lemma EndedWell(u: GzUnpacker, r: (Status, State), res: int, prefill: seq<byte>, source: seq<byte>)
    requires u.Ended(r, res, prefill) && u.z.d.source == source && r.0 != Ok
    requires res == 1 || u.z.d.readSourceErrors == 0
    ensures |prefill| <= |r.1.hist| && u.out.buffer.Length > 0 && u.out.position <= u.out.buffer.Length
    ensures u.out.Written() == r.1.hist[|prefill|..] && Ready(r, source, r.1.hist[|prefill|..], u, res)
  {
    hide Crc, Align, GzInflater.Verdict, Returns, ReadFails, GzOutput.Written;
    EndedReturns(u, r, res, prefill, source);
  }

  /** All but the last buffer. */
  ghost predicate Ready(r: (Status, State), source: seq<byte>, data: seq<byte>, u: GzUnpacker, res: int)
    reads u.z.d`srcPos
  {
    && Returns(r, source, data, res) && !ReadFails(r, source, res)
    && (r.0 == Done && res == 1 && Align(r.1.pos) / 8 + 8 <= |source| ==> u.z.d.srcPos == Align(r.1.pos) / 8 + 8)
  }

  lemma ResultIs(u: GzUnpacker, r: (Status, State), res: int, prefill: seq<byte>, source: seq<byte>, ok: bool)
    requires |prefill| <= |r.1.hist| && u.out.buffer.Length > 0
    requires u.out.file == r.1.hist[|prefill|..] && Ready(r, source, r.1.hist[|prefill|..], u, res)
    requires ok == (u.out.file != [])
    ensures Result(r, source, r.1.hist[|prefill|..], u, res, ok)
  {
    hide Returns, ReadFails, Align;
  }

  predicate Suits(w: Window, prefill: seq<byte>) {
    if w.Ring? then DICT_SIZE <= w.size <= |prefill| else prefill == []
  }

  lemma MemberComplete(dst: seq<byte>, src: seq<byte>, cs: seq<Chunk>, w: Window, prefill: seq<byte>)
    requires Member(dst, src, cs) && Suits(w, prefill)
    ensures Header(dst).Start?
    ensures |dst| == 18 + |Bytes(cs)| && dst[10 + |Bytes(cs)|..] == Footer(src)
    ensures var r := Outcome(dst, w, prefill);
      r.0 == Done && r.1.hist == prefill + src && Align(r.1.pos) / 8 == 10 + |Bytes(cs)|
  {
    hide All, Member, Footer, Header, BytesBits, Align;
    MemberInflates(dst, src, cs, prefill, w);
  }

  /** A member made from `src` can only have one result, with or without a ring. */
  lemma MemberResult(dst: seq<byte>, src: seq<byte>, cs: seq<Chunk>, w: Window, prefill: seq<byte>,
                     u: GzUnpacker, res: int, ok: bool)
    requires Member(dst, src, cs) && Suits(w, prefill) && u.out.buffer.Length > 0
    requires Header(dst).Start? && |prefill| <= |Outcome(dst, w, prefill).1.hist|
    requires var r := Outcome(dst, w, prefill); Result(r, dst, r.1.hist[|prefill|..], u, res, ok)
    ensures u.out.file == src && res == 1 && u.z.d.srcPos == |dst| && (ok <==> src != [])
  {
    hide Outcome, Member, Footer, Crc, Header, Align, Accepts;
    MemberComplete(dst, src, cs, w, prefill);
    FooterAccepted(dst, src, 10 + |Bytes(cs)|);
    assert (prefill + src)[|prefill|..] == src;
  }

  /** The inflater returns TINF_DONE at the end of a member. */
  lemma MemberReturns(dst: seq<byte>, src: seq<byte>, cs: seq<Chunk>, w: Window, prefill: seq<byte>, res: int)
    requires Member(dst, src, cs) && Suits(w, prefill)
    requires Header(dst).Start? && Returns(Outcome(dst, w, prefill), dst, src, res)
    ensures res == 1
  {
    hide Outcome, Member, Footer, Crc, Header, Align, Accepts;
    MemberComplete(dst, src, cs, w, prefill);
    FooterAccepted(dst, src, 10 + |Bytes(cs)|);
  }

  lemma FooterAccepted(dst: seq<byte>, src: seq<byte>, i: nat)
    requires i + 8 == |dst| && dst[i..] == Footer(src)
    ensures Accepts(Crc32(Crc(CRC_START, src)), dst, i)
  {
    hide Crc, Value, Le32, FromLe32;
    Le32RoundTrip(Value(!Crc(CRC_START, src)));
    assert dst[i..i + 4] == dst[i..][..4] == Footer(src)[..4] == Le32(Value(!Crc(CRC_START, src)));
  }

  /** The two ends together: what compress writes, gzUncompress turns back into the same
      bytes, with the checksum accepted and the source used up. */
  method RoundTrip(src: seq<byte>, dict: array<byte>, outputBufferSize: nat) returns (u: GzUnpacker, res: int, ok: bool)
    requires |src| > 0 && outputBufferSize > 0 && (dict.Length == 0 || dict.Length >= DICT_SIZE)
    modifies dict
    ensures u.out.file == src && res == 1 && ok && u.z.d.srcPos == |u.z.d.source|
  {
    hide Result, Outcome, Member, Header, Crc, DICT_SIZE;
    ghost var w, prefill := WindowOf(dict), dict[..];
    var dst, total, cs := Compress(src);
    MemberComplete(dst, src, cs, w, prefill);
    u, res, ok := GzUncompress(dst, dict, outputBufferSize);
    MemberResult(dst, src, cs, w, prefill, u, res, ok);
  }

  /** One more byte, and then the rest. */
  lemma AllStep(B: Bits, t: State, w: Window)
    requires WellFormed(t, w) && t.pos <= |B| && Decided(All(B, t, w).0)
    ensures var m := Run(B, t, w, 1);
      && Decided(m.0) && All(B, t, w) == (if m.0 == Ok then All(B, m.1, w) else m)
      && (m.0 == Ok ==> |m.1.hist| <= |All(B, t, w).1.hist|)
  {
    hide Run, All;
    RunOfAll(B, t, w, 1);
    var m := Run(B, t, w, 1);
    if m.0 == Ok { AllKeeps(B, m.1, w); }
  }

  /** Output is never taken back. */
  lemma {:induction false} AllKeeps(B: Bits, s: State, w: Window)
    requires WellFormed(s, w) && s.pos <= |B|
    ensures s.hist <= All(B, s, w).1.hist
    decreases |B| - s.pos, s.curlen, Order(s)
  {
    hide Micro;
    MicroProgress(B, s, w);
    MicroStopKeeps(B, s, w);
    match Micro(B, s, w)
    case Silent(s') => AllKeeps(B, s', w);
    case Byte(s') => AllKeeps(B, s', w);
    case Stop(st, s') =>
  }
}
