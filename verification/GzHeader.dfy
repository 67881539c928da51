/** The gzip member header (RFC 1952, section 2.3), written and parsed. */
module GzHeader {
  import opened Bits
  import opened Huffman
  import opened Tinflate

  const FHCRC := 2
  const FEXTRA := 4
  const FNAME := 8
  const FCOMMENT := 16

  /** The header that lzHeader writes. */
  const LZ_HEADER: seq<byte> := [0x1f, 0x8b, 0x08, 0, 0, 0, 0, 0, 0x04, 0x03]

  method LzHeader(buf: array<byte>, gzipHeader: bool) returns (len: nat)
    requires buf.Length >= 10
    modifies buf
    ensures len <= 10 && buf[..len] == if gzipHeader then LZ_HEADER else LZ_HEADER[2..]
  {
    len := 0;
    if gzipHeader {
      buf[0], buf[1] := 0x1f, 0x8b;
      len := 2;
    }
    buf[len], buf[len + 1] := 0x08, 0;
    len := len + 2;
    for i := 0 to 4
      invariant len == (if gzipHeader then 4 else 2) + i
      invariant forall k | 0 <= k < len :: buf[k] == LZ_HEADER[if gzipHeader then k else k + 2]
    {
      buf[len] := 0;
      len := len + 1;
    }
    buf[len], buf[len + 1] := 0x04, 0x03;
    len := len + 2;
  }

  /** What is found at the start of a source: where the compressed data start, an error, or
      an end of the source before that is clear. */
  datatype Found = Start(pos: nat) | NotGzip | Cut

  predicate Flag(flags: byte, f: nat)
    requires f > 0
  {
    flags / f % 2 == 1
  }

  /** After the next zero byte. */
  function AfterZero(s: seq<byte>, p: nat): (r: Found)
    ensures !r.NotGzip? && (r.Start? && p <= |s| ==> r.pos <= |s|)
    decreases |s| - p
  {
    if p >= |s| then Cut else if s[p] == 0 then Start(p + 1) else AfterZero(s, p + 1)
  }

  function Skip(s: seq<byte>, p: nat, n: nat): (r: Found)
    ensures !r.NotGzip? && (r.Start? && p <= |s| ==> r.pos <= |s|)
  {
    if p + n <= |s| then Start(p + n) else Cut
  }

  function AfterExtra(s: seq<byte>, p: nat, flags: byte): (r: Found)
    ensures !r.NotGzip? && (r.Start? && p <= |s| ==> r.pos <= |s|)
  {
    if !Flag(flags, FEXTRA) then Start(p)
    else if p + 2 > |s| then Cut
    else Skip(s, p + 2, LittleEndian16(s[p], s[p + 1]))
  }

  function AfterString(s: seq<byte>, p: nat, present: bool): (r: Found)
    ensures !r.NotGzip? && (r.Start? && p <= |s| ==> r.pos <= |s|)
  {
    if present then AfterZero(s, p) else Start(p)
  }

  /** The optional fields, from `p` on. */
  function AfterFields(s: seq<byte>, p: nat, flags: byte): (r: Found)
    ensures !r.NotGzip? && (r.Start? && p <= |s| ==> r.pos <= |s|)
  {
    var a := AfterExtra(s, p, flags);
    if a.Cut? then Cut
    else
      var b := AfterString(s, a.pos, Flag(flags, FNAME));
      if b.Cut? then Cut
      else
        var c := AfterString(s, b.pos, Flag(flags, FCOMMENT));
        if c.Cut? then Cut else if Flag(flags, FHCRC) then Skip(s, c.pos, 2) else c
  }

  function Header(s: seq<byte>): (r: Found)
    ensures r.Start? ==> r.pos <= |s|
  {
    if |s| < 1 then Cut
    else if s[0] != 0x1f then NotGzip
    else if |s| < 2 then Cut
    else if s[1] != 0x8b then NotGzip
    else if |s| < 3 then Cut
    else if s[2] != 8 then NotGzip
    else if |s| < 4 then Cut
    else if s[3] >= 0x20 then NotGzip
    else if |s| < 10 then Cut
    else AfterFields(s, 10, s[3])
  }

  /** Parses the header of the source; `d` has not read anything yet. Without the last
      precondition the loops that look for a zero byte could go on for ever. */
  method ParseHeader(d: TinfData) returns (res: int)
    requires d.srcPos == 0 && d.readSourceErrors == 0 && Header(d.source) != Cut
    modifies d`srcPos, d`readSourceErrors
    ensures d.srcPos <= |d.source| && d.readSourceErrors == 0
    ensures Header(d.source).NotGzip? ==> res == TINF_DATA_ERROR
    ensures Header(d.source).Start? ==> res == 0 && d.srcPos == Header(d.source).pos
  {
    hide AfterFields;
    var b := d.GetByte();
    if b != 0x1f {
      return TINF_DATA_ERROR;
    }
    b := d.GetByte();
    if b != 0x8b {
      return TINF_DATA_ERROR;
    }
    b := d.GetByte();
    if b != 8 {
      return TINF_DATA_ERROR;
    }
    var flags := d.GetByte();
    if flags >= 0x20 {
      return TINF_DATA_ERROR;
    }
    SkipBytes(d, 6);
    ParseFields(d, flags);
    res := 0;
  }

  method ParseFields(d: TinfData, flags: byte)
    requires d.srcPos <= |d.source| && d.readSourceErrors == 0 && AfterFields(d.source, d.srcPos, flags).Start?
    modifies d`srcPos, d`readSourceErrors
    ensures d.srcPos <= |d.source| && d.readSourceErrors == 0
    ensures d.srcPos == AfterFields(d.source, old(d.srcPos), flags).pos
  {
    hide AfterZero, Flag, AfterExtra, AfterString;
    ParseExtra(d, flags);
    ParseString(d, Flag(flags, FNAME));
    ParseString(d, Flag(flags, FCOMMENT));
    if Flag(flags, FHCRC) {
      var hcrc := d.GetByte();
      hcrc := d.GetByte();
    }
  }

  method ParseExtra(d: TinfData, flags: byte)
    requires d.srcPos <= |d.source| && d.readSourceErrors == 0 && AfterExtra(d.source, d.srcPos, flags).Start?
    modifies d`srcPos, d`readSourceErrors
    ensures d.srcPos <= |d.source| && d.readSourceErrors == 0
    ensures d.srcPos == AfterExtra(d.source, old(d.srcPos), flags).pos
  {
    hide Flag;
    if Flag(flags, FEXTRA) {
      var low := d.GetByte();
      var high := d.GetByte();
      SkipBytes(d, LittleEndian16(low, high));
    }
  }

  method ParseString(d: TinfData, present: bool)
    requires d.srcPos <= |d.source| && d.readSourceErrors == 0 && AfterString(d.source, d.srcPos, present).Start?
    modifies d`srcPos, d`readSourceErrors
    ensures d.srcPos <= |d.source| && d.readSourceErrors == 0
    ensures d.srcPos == AfterString(d.source, old(d.srcPos), present).pos
  {
    hide AfterZero;
    if present {
      SkipString(d);
    }
  }

  method SkipBytes(d: TinfData, num: nat)
    requires d.srcPos + num <= |d.source| && d.readSourceErrors == 0
    modifies d`srcPos, d`readSourceErrors
    ensures d.srcPos == old(d.srcPos) + num && d.readSourceErrors == 0
  {
    for i := 0 to num
      invariant d.srcPos == old(d.srcPos) + i && d.readSourceErrors == 0
    {
      var b := d.GetByte();
    }
  }

  method SkipString(d: TinfData)
    requires d.srcPos <= |d.source| && d.readSourceErrors == 0 && AfterZero(d.source, d.srcPos).Start?
    modifies d`srcPos, d`readSourceErrors
    ensures d.srcPos <= |d.source| && d.readSourceErrors == 0
    ensures d.srcPos == AfterZero(d.source, old(d.srcPos)).pos
  {
    var b := d.GetByte();
    while b != 0
      invariant d.srcPos <= |d.source| && d.readSourceErrors == 0
      invariant b == 0 ==> d.srcPos == AfterZero(d.source, old(d.srcPos)).pos
      invariant b != 0 ==> AfterZero(d.source, d.srcPos) == AfterZero(d.source, old(d.srcPos))
      decreases b != 0, |d.source| - d.srcPos
    {
      b := d.GetByte();
    }
  }

  /** A header as RFC 1952 defines it. */
  datatype GzFields = GzFields(
    text: bool, time: seq<byte>, extra: Field, name: Field, comment: Field, hcrc: Field)

  datatype Field = Absent | Present(bytes: seq<byte>)

  predicate ProperHeader(h: GzFields) {
    && |h.time| == 6 && (h.extra.Present? ==> |h.extra.bytes| < 0x10000)
    && (h.name.Present? ==> 0 !in h.name.bytes) && (h.comment.Present? ==> 0 !in h.comment.bytes)
    && (h.hcrc.Present? ==> |h.hcrc.bytes| == 2)
  }

  function Flags(h: GzFields): (f: byte) {
    (if h.text then 1 else 0) + (if h.hcrc.Present? then 2 else 0) + (if h.extra.Present? then 4 else 0)
    + (if h.name.Present? then 8 else 0) + (if h.comment.Present? then 16 else 0)
  }

  function StringBytes(f: Field): seq<byte> { if f.Present? then f.bytes + [0] else [] }

  function ExtraBytes(f: Field): seq<byte>
    requires f.Present? ==> |f.bytes| < 0x10000
  {
    if f.Present? then [(|f.bytes| % 256) as byte, (|f.bytes| / 256) as byte] + f.bytes else []
  }

  function FieldBytes(h: GzFields): seq<byte>
    requires ProperHeader(h)
  {
    ExtraBytes(h.extra) + StringBytes(h.name) + StringBytes(h.comment)
    + if h.hcrc.Present? then h.hcrc.bytes else []
  }

  function HeaderBytes(h: GzFields): seq<byte>
    requires ProperHeader(h)
  {
    [0x1f, 0x8b, 8, Flags(h)] + h.time + FieldBytes(h)
  }

  /** `w` stands at `p` in `s`. */
  ghost predicate Stands(s: seq<byte>, p: nat, w: seq<byte>) { p + |w| <= |s| && s[p..p + |w|] == w }

  lemma StandsConcat(s: seq<byte>, p: nat, u: seq<byte>, w: seq<byte>)
    requires Stands(s, p, u + w)
    ensures Stands(s, p, u) && Stands(s, p + |u|, w)
  {
    assert s[p..p + |u|] == s[p..p + |u + w|][..|u|] == u;
    assert s[p + |u|..p + |u| + |w|] == s[p..p + |u + w|][|u|..] == w;
  }

  lemma {:induction false} StringParses(s: seq<byte>, p: nat, w: seq<byte>)
    requires Stands(s, p, w + [0]) && 0 !in w
    ensures AfterZero(s, p) == Start(p + |w| + 1)
    decreases |w|
  {
    assert s[p] == s[p..p + |w| + 1][0];
    if w == [] {
    } else {
      assert w + [0] == [w[0]] + (w[1..] + [0]);
      StandsConcat(s, p, [w[0]], w[1..] + [0]);
      StringParses(s, p + 1, w[1..]);
    }
  }

  lemma FlagsRead(h: GzFields)
    ensures Flags(h) < 0x20
    ensures Flag(Flags(h), FEXTRA) == h.extra.Present? && Flag(Flags(h), FHCRC) == h.hcrc.Present?
    ensures Flag(Flags(h), FNAME) == h.name.Present? && Flag(Flags(h), FCOMMENT) == h.comment.Present?
  {}

  lemma FieldParses(s: seq<byte>, p: nat, f: Field)
    requires Stands(s, p, StringBytes(f)) && (f.Present? ==> 0 !in f.bytes)
    ensures AfterString(s, p, f.Present?) == Start(p + |StringBytes(f)|)
  {
    if f.Present? { StringParses(s, p, f.bytes); }
  }

  lemma ExtraParses(s: seq<byte>, p: nat, f: Field, flags: byte)
    requires (f.Present? ==> |f.bytes| < 0x10000) && Stands(s, p, ExtraBytes(f)) && Flag(flags, FEXTRA) == f.Present?
    ensures AfterExtra(s, p, flags) == Start(p + |ExtraBytes(f)|)
  {
    if f.Present? {
      assert s[p] == s[p..p + |ExtraBytes(f)|][0] && s[p + 1] == s[p..p + |ExtraBytes(f)|][1];
    }
  }

  lemma FieldsStand(s: seq<byte>, h: GzFields)
    requires ProperHeader(h) && Stands(s, 10, FieldBytes(h))
    ensures var e, n, c := ExtraBytes(h.extra), StringBytes(h.name), StringBytes(h.comment);
      && Stands(s, 10, e) && Stands(s, 10 + |e|, n) && Stands(s, 10 + |e| + |n|, c)
      && 10 + |FieldBytes(h)| <= |s|
      && |FieldBytes(h)| == |e| + |n| + |c| + if h.hcrc.Present? then 2 else 0
  {
    hide ExtraBytes, StringBytes;
    var e, n, c := ExtraBytes(h.extra), StringBytes(h.name), StringBytes(h.comment);
    var x := if h.hcrc.Present? then h.hcrc.bytes else [];
    StandsConcat(s, 10, e + n + c, x);
    StandsConcat(s, 10, e + n, c);
    StandsConcat(s, 10, e, n);
  }

  lemma FieldsParse(s: seq<byte>, h: GzFields, flags: byte)
    requires ProperHeader(h) && flags == Flags(h)
    requires Stands(s, 10, FieldBytes(h))
    ensures AfterFields(s, 10, flags) == Start(10 + |FieldBytes(h)|)
  {
    hide Flag, ExtraBytes, StringBytes, AfterZero, AfterExtra, AfterString, Stands;
    FlagsRead(h);
    FieldsStand(s, h);
    var e, n := ExtraBytes(h.extra), StringBytes(h.name);
    ExtraParses(s, 10, h.extra, flags);
    FieldParses(s, 10 + |e|, h.name);
    FieldParses(s, 10 + |e| + |n|, h.comment);
  }

  /** Whatever optional fields a header has, the compressed data are found right after. */
  lemma HeaderParses(h: GzFields, rest: seq<byte>)
    requires ProperHeader(h)
    ensures Header(HeaderBytes(h) + rest) == Start(|HeaderBytes(h)|)
  {
    hide AfterFields, FieldBytes, Flags;
    var s, fixed := HeaderBytes(h) + rest, [0x1f, 0x8b, 8, Flags(h)];
    FlagsRead(h);
    assert s[..|HeaderBytes(h)|] == HeaderBytes(h);
    StandsConcat(s, 0, fixed + h.time, FieldBytes(h));
    StandsConcat(s, 0, fixed, h.time);
    assert s[..4][0] == fixed[0] && s[..4][1] == fixed[1] && s[..4][2] == fixed[2] && s[..4][3] == fixed[3];
    FieldsParse(s, h, Flags(h));
  }

  /** The header lzHeader writes is one of them. */
  lemma LzHeaderParses(rest: seq<byte>)
    ensures Header(LZ_HEADER + rest) == Start(10)
  {
    var s := LZ_HEADER + rest;
    assert s[..10] == LZ_HEADER;
    assert s[3] == 0;
  }
}
