/** Header blocks as the packer writes them (libtar). */
module TarWrite {
  import opened Bits
  import opened TarHeader

  const REGTYPE: byte := 0x30
  const DIRTYPE: byte := 0x35
  /** "ustar", "00" and "root", with the zeros that are copied along. */
  const TMAGIC: seq<byte> := [0x75, 0x73, 0x74, 0x61, 0x72, 0]
  const TVERSION: seq<byte> := [0x30, 0x30]
  const ROOT: seq<byte> := [0x72, 0x6F, 0x6F, 0x74, 0]
  const SLASH: byte := 0x2F
  const T_NAMELEN := 100

  /** What stat says of a file or a directory. */
  datatype Stat = Stat(mode: nat, size: nat, mtime: nat)

  /** An unsigned number in octal, as printf writes it. */
  function Octal(n: nat): (s: seq<byte>)
    ensures s != [] && forall c <- s :: OctalDigit(c)
  {
    if n < 8 then [0x30 + n as byte] else Octal(n / 8) + [0x30 + n % 8]
  }

  function Spaces(n: nat): (s: seq<byte>)
    ensures |s| == n && forall i | 0 <= i < n :: s[i] == 0x20
  {
    seq(n, i => 0x20)
  }

  function Zeros(n: nat): (s: seq<byte>)
    ensures |s| == n && forall i | 0 <= i < n :: s[i] == 0
  {
    seq(n, i => 0)
  }

  /** Right-aligned in `width` columns. */
  function Aligned(n: nat, width: nat): (s: seq<byte>)
    ensures |s| >= width
  {
    var o := Octal(n);
    if |o| >= width then o else Spaces(width - |o|) + o
  }

  /** What snprintf leaves in a buffer of `size` bytes. */
  function Printed(s: seq<byte>, size: nat): (r: seq<byte>)
    requires size > 0
    ensures |r| <= size
  {
    (if |s| < size then s else s[..size - 1]) + [0]
  }

  /** int_to_oct and int_to_oct_nonull. */
  function IntToOct(n: nat, size: nat): (r: seq<byte>)
    requires size > 2
    ensures |r| == size
  {
    Printed(Aligned(n, size - 2) + [0x20], size)
  }

  function IntToOctNoNull(n: nat, size: nat): (r: seq<byte>)
    requires size > 1
    ensures |r| == size
  {
    Printed(Aligned(n, size - 1), size)[..size - 1] + [0x20]
  }

  function Pow8(n: nat): (r: nat)
    ensures r > 0
  {
    if n == 0 then 1 else 8 * Pow8(n - 1)
  }

  lemma {:induction false} OctalLength(n: nat, k: nat)
    requires k > 0 && n < Pow8(k)
    ensures |Octal(n)| <= k
  {
    if n >= 8 {
      OctalLength(n / 8, k - 1);
    }
  }

  lemma {:induction false} DigitsSnoc(s: seq<byte>, d: byte, acc: nat)
    requires OctalDigit(d) && forall c <- s :: OctalDigit(c)
    ensures Digits(s + [d], acc) == 8 * Digits(s, acc) + (d as nat - 0x30)
    decreases |s|
  {
    if s == [] {
      assert [d][1..] == [] && s + [d] == [d];
    } else {
      assert (s + [d])[1..] == s[1..] + [d] && s[0] in s;
      DigitsSnoc(s[1..], d, 8 * acc + (s[0] as nat - 0x30));
    }
  }

  lemma {:induction false} OctalDigits(n: nat)
    ensures Digits(Octal(n), 0) == n
  {
    if n >= 8 {
      OctalDigits(n / 8);
      DigitsSnoc(Octal(n / 8), 0x30 + n % 8, 0);
    } else {
      assert Octal(n)[1..] == [];
    }
  }

  /** Octal text with blanks on both sides reads back as the number. */
  lemma NumberReads(left: seq<byte>, n: nat, right: seq<byte>)
    requires n <= ULLONG_MAX
    requires (forall c <- left :: c == 0x20) && forall c <- right :: Blank(c)
    ensures Number(left + Octal(n) + right) == n
  {
    var f, o := left + Octal(n) + right, Octal(n);
    assert OctalDigit(o[0]) && OctalDigit(o[|o| - 1]);
    assert f[|left|] == o[0] && f[|left| + |o| - 1] == o[|o| - 1];
    forall k | 0 <= k < |left| ensures Blank(f[k]) {
      assert f[k] == left[k] && left[k] in left;
    }
    forall k | |left| + |o| - 1 < k < |f| ensures Blank(f[k]) {
      assert f[k] == right[k - |left| - |o|] && f[k] in right;
    }
    TrimmedIs(f, |left|, |left| + |o| - 1);
    assert f[|left|..|left| + |o|] == o;
    OctalDigits(n);
    assert f[0] == if left == [] then o[0] else left[0];
  }

  lemma IntToOctReads(n: nat, size: nat)
    requires size > 2 && n < Pow8(size - 2) && n <= ULLONG_MAX
    ensures Number(IntToOct(n, size)) == n
  {
    OctalLength(n, size - 2);
    hide Number, Octal, Pow8;
    var left := Spaces(size - 2 - |Octal(n)|);
    assert IntToOct(n, size) == left + Octal(n) + [0x20, 0];
    NumberReads(left, n, [0x20, 0]);
  }

  lemma IntToOctNoNullReads(n: nat, size: nat)
    requires size > 1 && n < Pow8(size - 1) && n <= ULLONG_MAX
    ensures Number(IntToOctNoNull(n, size)) == n
  {
    OctalLength(n, size - 1);
    hide Number, Octal, Pow8;
    var left := Spaces(size - 1 - |Octal(n)|);
    assert IntToOctNoNull(n, size) == left + Octal(n) + [0x20];
    NumberReads(left, n, [0x20]);
  }

  /** `w` written over `s` at `at`. */
  function Put(s: seq<byte>, at: nat, w: seq<byte>): (r: seq<byte>)
    requires at + |w| <= |s|
    ensures |r| == |s| && r[at..at + |w|] == w
  {
    s[..at] + w + s[at + |w|..]
  }

  lemma PutKeeps(s: seq<byte>, at: nat, w: seq<byte>)
    requires at + |w| <= |s|
    ensures forall i, j | 0 <= i <= j <= at || at + |w| <= i <= j <= |s| :: Put(s, at, w)[i..j] == s[i..j]
    ensures forall i | 0 <= i < at || at + |w| <= i < |s| :: Put(s, at, w)[i] == s[i]
  {}

  /** The name that is put into the header: directories end with a slash. */
  function FullName(path: seq<byte>, isDir: bool): seq<byte>
    requires path != []
  {
    if isDir && path[|path| - 1] != SLASH then path + [SLASH] else path
  }

  /** strchr: the first slash from `k` on, or the end. */
  function SlashFrom(path: seq<byte>, k: nat): (i: nat)
    requires k <= |path|
    ensures k <= i <= |path| && (forall j | k <= j < i :: path[j] != SLASH) && (i < |path| ==> path[i] == SLASH)
    decreases |path| - k
  {
    if k == |path| || path[k] == SLASH then k else SlashFrom(path, k + 1)
  }

  /** Where a name too long for its field is split, if it is. */
  function SplitAt(path: seq<byte>): (i: nat)
    requires |path| > T_NAMELEN
    ensures |path| - T_NAMELEN - 1 <= i <= |path|
  {
    SlashFrom(path, |path| - T_NAMELEN - 1)
  }

  /** What th_set_path puts into the name field, as far as it fits, and into the prefix field,
      terminator included. A long name without a slash near its end leaves them as they are. */
  function NameOf(path: seq<byte>, isDir: bool): seq<byte>
    requires path != []
  {
    if |path| <= T_NAMELEN then FullName(path, isDir)
    else if SplitAt(path) == |path| then []
    else FullName(path, isDir)[SplitAt(path) + 1..]
  }

  function PrefixOf(path: seq<byte>): (r: seq<byte>)
    ensures |r| <= 155
  {
    if |path| <= T_NAMELEN || SplitAt(path) == |path| then []
    else Printed(path, if SplitAt(path) + 1 < 155 then SplitAt(path) + 1 else 155)
  }

  predicate IsReg(mode: nat) { mode / 0x1000 % 0x10 == 8 }
  predicate IsDir(mode: nat) { mode / 0x1000 % 0x10 == 4 }

  function Type(mode: nat): seq<byte> {
    if IsDir(mode) then [DIRTYPE] else if IsReg(mode) then [REGTYPE] else [0]
  }

  /** A number passed as an int and printed as an unsigned long, which have 32 bits each on
      the targets. */
  function Low32(n: nat): (r: nat)
    ensures r < 0x1_0000_0000 && (r == n <==> n < 0x1_0000_0000)
  {
    n % 0x1_0000_0000
  }

  function SizeField(s: Stat): nat { if IsReg(s.mode) then Low32(s.size) else 0 }

  /** th_set_from_stat on a cleared header. */
  function StatHeader(s: Stat): (b: seq<byte>)
    ensures |b| == TAR_BLOCK_SIZE
  {
    var b1 := Put(Put(Zeros(TAR_BLOCK_SIZE), 156, Type(s.mode)), 265, ROOT);
    var b2 := Put(Put(b1, 108, IntToOct(0, 8)), 297, ROOT);
    var b3 := Put(Put(b2, 116, IntToOct(0, 8)), 100, IntToOct(s.mode, 8));
    Put(Put(b3, 136, IntToOctNoNull(Low32(s.mtime), 12)), 124, IntToOctNoNull(SizeField(s), 12))
  }

  /** The sum of all bytes. */
  function Sum(s: seq<byte>): nat {
    if s == [] then 0 else Sum(s[..|s| - 1]) + s[|s| - 1]
  }

  /** th_crc_calc: the checksum field counts as eight spaces. */
  function Checksum(b: seq<byte>): nat
    requires |b| == TAR_BLOCK_SIZE
  {
    Sum(Put(b, 148, Spaces(8)))
  }

  /** The header of a file or directory; its type comes from the mode. */
  function HeaderBytes(path: seq<byte>, s: Stat): (b: seq<byte>)
    requires path != []
    ensures |b| == TAR_BLOCK_SIZE
  {
    var b1 := Put(Put(StatHeader(s), 0, Printed(NameOf(path, IsDir(s.mode)), 100)), 345, PrefixOf(path));
    var b2 := Put(Put(b1, 263, TVERSION), 257, TMAGIC);
    Put(b2, 148, IntToOct(Checksum(b2), 8))
  }

  lemma {:induction false} SumBound(s: seq<byte>)
    ensures Sum(s) <= 255 * |s|
  {
    if s == [] {
    } else {
      SumBound(s[..|s| - 1]);
    }
  }

  lemma Powers()
    ensures Pow8(6) == 262144 && Pow8(11) == 8589934592
  {
    assert Pow8(1) == 8 && Pow8(2) == 64 && Pow8(3) == 512 && Pow8(4) == 4096 && Pow8(5) == 32768 && Pow8(6) == 262144;
    assert Pow8(7) == 2097152 && Pow8(8) == 16777216 && Pow8(9) == 134217728 && Pow8(10) == 1073741824;
  }

  /** The name field for a name of which `name` is left. */
  function Padding(name: seq<byte>): (f: seq<byte>)
    requires |name| <= 100
    ensures |f| == 100
  {
    name + Zeros(100 - |name|)
  }

  /** The fields as libtar lays them out. */
  ghost predicate Laid(b: seq<byte>, name: seq<byte>, s: Stat) {
    && |b| == TAR_BLOCK_SIZE
    && |name| <= 100 && b[..100] == Padding(name)
    && b[100..108] == IntToOct(s.mode, 8) && b[108..116] == IntToOct(0, 8) && b[116..124] == IntToOct(0, 8)
    && b[124..136] == IntToOctNoNull(SizeField(s), 12)
    && b[136..148] == IntToOctNoNull(Low32(s.mtime), 12) && [b[156]] == Type(s.mode)
    && b[257..263] == TMAGIC && b[265..270] == ROOT && b[297..302] == ROOT
  }

  /** All bytes of a header before its name, magic and checksum are set. */
  ghost predicate StatFields(b: seq<byte>, s: Stat) {
    && |b| == TAR_BLOCK_SIZE
    && b[..100] == Zeros(100) && b[100..108] == IntToOct(s.mode, 8) && b[108..116] == IntToOct(0, 8)
    && b[116..124] == IntToOct(0, 8) && b[124..136] == IntToOctNoNull(SizeField(s), 12)
    && b[136..148] == IntToOctNoNull(Low32(s.mtime), 12) && b[148..156] == Zeros(8) && [b[156]] == Type(s.mode)
    && b[157..265] == Zeros(108) && b[265..270] == ROOT && b[270..297] == Zeros(27) && b[297..302] == ROOT
    && b[302..512] == Zeros(210)
  }

  lemma StatLaid(s: Stat)
    ensures StatFields(StatHeader(s), s)
  {
    hide Put, IntToOct, IntToOctNoNull, IsReg, IsDir;
    var b0 := Zeros(TAR_BLOCK_SIZE);
    var b1 := Put(b0, 156, Type(s.mode));
    PutKeeps(b0, 156, Type(s.mode));
    var b2 := Put(b1, 265, ROOT);
    PutKeeps(b1, 265, ROOT);
    var b3 := Put(b2, 108, IntToOct(0, 8));
    PutKeeps(b2, 108, IntToOct(0, 8));
    var b4 := Put(b3, 297, ROOT);
    PutKeeps(b3, 297, ROOT);
    var b5 := Put(b4, 116, IntToOct(0, 8));
    PutKeeps(b4, 116, IntToOct(0, 8));
    var b6 := Put(b5, 100, IntToOct(s.mode, 8));
    PutKeeps(b5, 100, IntToOct(s.mode, 8));
    var b7 := Put(b6, 136, IntToOctNoNull(Low32(s.mtime), 12));
    PutKeeps(b6, 136, IntToOctNoNull(Low32(s.mtime), 12));
    PutKeeps(b7, 124, IntToOctNoNull(SizeField(s), 12));
    assert b0[0..100] == Zeros(100) && b0[148..156] == Zeros(8);
    assert b0[157..265] == Zeros(108) && b0[270..297] == Zeros(27) && b0[302..512] == Zeros(210);
    assert b1[156] == b1[156..157][0];
  }

  /** What is left of a name in its field: at most 99 characters. */
  function Cut99(full: seq<byte>): (p: seq<byte>)
    ensures |p| <= 99 && p <= full
  {
    if |full| < 100 then full else full[..99]
  }

  lemma HeaderLaid(path: seq<byte>, s: Stat)
    requires path != []
    ensures Laid(HeaderBytes(path, s), Cut99(NameOf(path, IsDir(s.mode))), s)
    ensures HeaderBytes(path, s)[148..156] == IntToOct(Checksum(HeaderBytes(path, s)), 8)
  {
    StatLaid(s);
    hide Put, IntToOct, IntToOctNoNull, IsReg, IsDir, NameOf, PrefixOf, StatHeader, Sum;
    var full := NameOf(path, IsDir(s.mode));
    var name := Printed(full, 100);
    var b0 := StatHeader(s);
    var bn := Put(b0, 0, name);
    PutKeeps(b0, 0, name);
    var b1 := Put(bn, 345, PrefixOf(path));
    PutKeeps(bn, 345, PrefixOf(path));
    var b2 := Put(b1, 263, TVERSION);
    PutKeeps(b1, 263, TVERSION);
    var b3 := Put(b2, 257, TMAGIC);
    PutKeeps(b2, 257, TMAGIC);
    PutKeeps(b3, 148, IntToOct(Checksum(b3), 8));
    Overwritten(b3, 148, IntToOct(Checksum(b3), 8), Spaces(8));
    assert b0[156] == b0[..157][156];
    NameField(b0, full);
    assert bn[0..100] == bn[..100] && b1[0..100] == b1[..100];
    assert b3[0..100] == b3[..100];
    assert HeaderBytes(path, s)[0..100] == HeaderBytes(path, s)[..100];
  }

  /** Magic and version stay where they were put, and the checksum stored is the header's own. */
  lemma UstarLaid(h: seq<byte>)
    requires |h| == TAR_BLOCK_SIZE
    ensures var b := Put(Put(h, 263, TVERSION), 257, TMAGIC);
      var c := Put(b, 148, IntToOct(Checksum(b), 8));
      c[257..263] == TMAGIC && c[263..265] == TVERSION && c[148..156] == IntToOct(Checksum(c), 8)
  {
    hide Put, IntToOct, Sum;
    var b1 := Put(h, 263, TVERSION);
    var b := Put(b1, 257, TMAGIC);
    PutKeeps(b1, 257, TMAGIC);
    PutKeeps(b, 148, IntToOct(Checksum(b), 8));
    Overwritten(b, 148, IntToOct(Checksum(b), 8), Spaces(8));
  }

  lemma Overwritten(s: seq<byte>, at: nat, w: seq<byte>, v: seq<byte>)
    requires at + |w| <= |s| && |v| == |w|
    ensures Put(Put(s, at, w), at, v) == Put(s, at, v)
  {}

  lemma NameField(b: seq<byte>, full: seq<byte>)
    requires |b| >= 100 && b[..100] == Zeros(100)
    ensures Put(b, 0, Printed(full, 100))[..100] == Padding(Cut99(full))
  {
    var n := Printed(full, 100);
    forall k | |n| <= k < 100 ensures b[k] == 0 {
      assert b[k] == b[..100][k];
    }
  }

  lemma NumbersRead(s: Stat)
    requires s.mode < Pow8(6)
    ensures Number(IntToOct(s.mode, 8)) == s.mode && Number(IntToOct(0, 8)) == 0
    ensures Number(IntToOctNoNull(Low32(s.mtime), 12)) == Low32(s.mtime)
    ensures Number(IntToOctNoNull(SizeField(s), 12)) == SizeField(s)
  {
    Powers();
    hide IntToOct, IntToOctNoNull, Number, Pow8, IsReg;
    IntToOctReads(s.mode, 8);
    IntToOctReads(0, 8);
    IntToOctNoNullReads(Low32(s.mtime), 12);
    IntToOctNoNullReads(SizeField(s), 12);
  }

  lemma LaidReads(b: seq<byte>, name: seq<byte>, s: Stat)
    requires Laid(b, name, s) && s.mode < Pow8(6)
    ensures var h := Translated(b);
      && h.filename == Text(Padding(name))
      && h.filemode == s.mode && h.uid == h.gid == 0 && h.mtime == Low32(s.mtime)
      && h.filesize == SizeField(s)
      && h.kind == (if IsDir(s.mode) then Directory else Normal)
  {
    hide IntToOct, IntToOctNoNull, Number, Text, IsReg, IsDir, Pow8;
    NumbersRead(s);
    assert b[156] == [b[156]][0];
  }

  lemma ChecksumReads(b: seq<byte>)
    requires |b| == TAR_BLOCK_SIZE && b[148..156] == IntToOct(Checksum(b), 8)
    ensures Translated(b).checksum == Checksum(b)
  {
    SumBound(Put(b, 148, Spaces(8)));
    Powers();
    hide IntToOct, Number, Pow8, Sum;
    IntToOctReads(Checksum(b), 8);
  }

  /** The extractor reads the numbers and the type that were written. */
  lemma HeaderReads(path: seq<byte>, s: Stat)
    requires path != [] && s.mode < Pow8(6)
    ensures var h, name := Translated(HeaderBytes(path, s)), Cut99(NameOf(path, IsDir(s.mode)));
      && h.filename == Text(Padding(name))
      && h.filemode == s.mode && h.uid == h.gid == 0 && h.mtime == Low32(s.mtime)
      && h.filesize == SizeField(s)
      && h.checksum == Checksum(HeaderBytes(path, s))
      && h.kind == (if IsDir(s.mode) then Directory else Normal)
  {
    hide HeaderBytes, IntToOct, IntToOctNoNull, Number, Text, IsReg, IsDir, Pow8, Sum, Cut99, NameOf, Translated,
      Laid;
    HeaderLaid(path, s);
    LaidReads(HeaderBytes(path, s), Cut99(NameOf(path, IsDir(s.mode))), s);
    ChecksumReads(HeaderBytes(path, s));
  }

  /** The texts of such a header all fit where the extractor copies them. */
  lemma HeaderFits(path: seq<byte>, s: Stat)
    requires path != []
    ensures Fits(Translated(HeaderBytes(path, s)))
  {
    hide HeaderBytes, IntToOct, IntToOctNoNull, Text, Number, Translated, Fits;
    HeaderLaid(path, s);
    var b := HeaderBytes(path, s);
    assert b[257..263][5] == TMAGIC[5] == 0;
    assert b[265..297][4] == b[265..270][4] == 0 && b[297..329][4] == b[297..302][4] == 0;
    FitsIff(b);
  }

  lemma NameKept(full: seq<byte>)
    requires full != [] && 0 !in full && |full| <= 99 && full[0] != 0x20 && full[|full| - 1] != 0x20
    ensures Text(Padding(full)) == full
  {
    hide Trimmed, CString;
    var f := Padding(full);
    assert full[0] in full && full[|full| - 1] in full;
    TrimmedIs(f, 0, |full| - 1);
    assert f[..|full|] == full;
    WholeString(full);
  }

  /** What is read from a field neither begins with a blank nor contains a zero. */
  lemma TextStarts(f: seq<byte>)
    ensures var t := Text(f); |t| <= |f| && 0 !in t && (t != [] ==> !Blank(t[0]))
  {}

  lemma NameCut(full: seq<byte>)
    requires 0 !in full && |full| > 99
    ensures Text(Padding(Cut99(full))) != full
  {
    hide Trimmed, CString;
    var f := Padding(Cut99(full));
    assert f[99] == 0;
    if |Trimmed(f)| == 100 { LastNotBlank(f); }
  }

  lemma LastNotBlank(f: seq<byte>)
    requires f != [] && Blank(f[|f| - 1])
    ensures |Trimmed(f)| < |f|
  {}

  lemma NameTrimmed(full: seq<byte>)
    requires full != [] && 0 !in full && |full| <= 99 && full[0] != 0x20 && full[|full| - 1] == 0x20
    ensures Text(Padding(full)) != full
  {
    hide Trimmed, CString;
    var f := Padding(full);
    assert full[0] in full;
    TrimmedRight(f, |full|);
    assert f[..|full|] == full;
    LastNotBlank(full);
  }

  /** A name survives the field and the trimming if and only if it leaves room for its
      terminator and has no spaces at its ends. */
  lemma NameSurvives(path: seq<byte>, isDir: bool)
    requires path != [] && 0 !in path
    ensures var full := FullName(path, isDir);
      Text(Padding(Cut99(NameOf(path, isDir)))) == full <==>
      |full| <= 99 && full[0] != 0x20 && full[|full| - 1] != 0x20
  {
    hide Text, Padding, Zeros;
    var full := FullName(path, isDir);
    if |path| > T_NAMELEN {
      TextStarts(Padding(Cut99(NameOf(path, isDir))));
    } else if |full| > 99 {
      NameCut(full);
    } else if full[0] == 0x20 {
      TextStarts(Padding(full));
    } else if full[|full| - 1] == 0x20 {
      NameTrimmed(full);
    } else {
      NameKept(full);
    }
  }

  /** A long name that is split is the prefix, a slash and what goes into the name field, if the
      prefix fits. Prefix and terminator take 155 bytes at most. */
  lemma SplitRejoins(path: seq<byte>, isDir: bool)
    requires |path| > T_NAMELEN && SplitAt(path) < |path|
    ensures var i, p := SplitAt(path), PrefixOf(path);
      && p != [] && p[..|p| - 1] == path[..if i < 154 then i else 154] && p[|p| - 1] == 0
      && (i <= 154 ==> FullName(path, isDir) == p[..|p| - 1] + [0x2F] + NameOf(path, isDir))
  {
    var i := SplitAt(path);
    assert path == path[..i] + [path[i]] + path[i + 1..];
  }

  /** A long name without a slash among the 100 characters before its last one is lost: its
      header is an empty one. */
  lemma NameLost(path: seq<byte>, s: Stat)
    requires path != [] && 0 !in path
    ensures HeaderBytes(path, s)[0] == 0 <==>
      |path| > T_NAMELEN && forall i | |path| - T_NAMELEN - 1 <= i < |path| - 1 :: path[i] != SLASH
  {
    hide HeaderBytes, IntToOct, IntToOctNoNull, IsDir, IsReg;
    HeaderLaid(path, s);
    var full, name := FullName(path, IsDir(s.mode)), NameOf(path, IsDir(s.mode));
    assert HeaderBytes(path, s)[0] == HeaderBytes(path, s)[..100][0] == Padding(Cut99(name))[0];
    if name != [] { assert Cut99(name)[0] == name[0] && name[0] in full; }
  }

  lemma {:induction false} SkipSpaces(k: nat, rest: seq<byte>)
    requires rest != [] && !Space(rest[0])
    ensures SkipSpace(Spaces(k) + rest) == rest
  {
    var s := Spaces(k) + rest;
    if k == 0 {
      assert s == rest;
    } else {
      assert s[1..] == Spaces(k - 1) + rest;
      SkipSpaces(k - 1, rest);
    }
  }

  lemma {:induction false} DigitsEnd(t: seq<byte>, rest: seq<byte>, acc: nat)
    requires rest != [] && !OctalDigit(rest[0]) && forall c <- t :: OctalDigit(c)
    ensures Digits(t + rest, acc) == Digits(t, acc)
    decreases |t|
  {
    if t == [] {
      assert t + rest == rest;
    } else {
      assert (t + rest)[1..] == t[1..] + rest && t[0] in t;
      DigitsEnd(t[1..], rest, 8 * acc + (t[0] as nat - 0x30));
    }
  }

  /** oct_to_int on a field that int_to_oct has written. */
  lemma OctToInt(n: nat, size: nat)
    requires size > 2 && n < Pow8(size - 2) && n <= ULLONG_MAX
    ensures StrToUll(IntToOct(n, size)) == n
  {
    OctalLength(n, size - 2);
    hide Octal, Pow8;
    var o := Octal(n);
    assert OctalDigit(o[0]);
    var rest := o + [0x20, 0];
    assert IntToOct(n, size) == Spaces(size - 2 - |o|) + rest;
    SkipSpaces(size - 2 - |o|, rest);
    DigitsEnd(o, [0x20, 0], 0);
    OctalDigits(n);
  }

  predicate EndsWithSlash(s: seq<byte>) { s != [] && s[|s| - 1] == SLASH }

  /** The header buffer of `TAR`. */
  class Tar {
    const thBuf: array<byte>

    constructor ()
      ensures thBuf.Length == TAR_BLOCK_SIZE && fresh(thBuf)
    {
      thBuf := new byte[TAR_BLOCK_SIZE];
    }

    method Store(at: nat, w: seq<byte>)
      requires at + |w| <= thBuf.Length
      modifies thBuf
      ensures thBuf[..] == Put(old(thBuf[..]), at, w)
    {
      ghost var before := thBuf[..];
      for i := 0 to |w|
        invariant thBuf[..] == before[..at] + w[..i] + before[at + i..]
      {
        thBuf[at + i] := w[i];
      }
    }

    /** `memset` to zero. */
    method Clear()
      modifies thBuf
      ensures thBuf[..] == Zeros(thBuf.Length)
    {
      for i := 0 to thBuf.Length
        invariant forall k | 0 <= k < i :: thBuf[k] == 0
      {
        thBuf[i] := 0;
      }
    }

    /** th_set_from_stat, on a cleared buffer. */
    method ThSetFromStat(s: Stat)
      requires thBuf.Length == TAR_BLOCK_SIZE && thBuf[..] == Zeros(TAR_BLOCK_SIZE)
      modifies thBuf
      ensures thBuf[..] == StatHeader(s) && StatFields(thBuf[..], s)
    {
      hide Put, IntToOct, IntToOctNoNull, StatFields;
      StatLaid(s);
      if IsReg(s.mode) {
        Store(156, [REGTYPE]);
      }
      if IsDir(s.mode) {
        Store(156, [DIRTYPE]);
      }
      Untyped(s.mode);
      Store(265, ROOT);
      Store(108, IntToOct(0, 8));
      Store(297, ROOT);
      Store(116, IntToOct(0, 8));
      Store(100, IntToOct(s.mode, 8));
      Store(136, IntToOctNoNull(Low32(s.mtime), 12));
      if IsReg(s.mode) {
        Store(124, IntToOctNoNull(Low32(s.size), 12));
      } else {
        Store(124, IntToOctNoNull(0, 12));
      }
    }

    lemma Untyped(mode: nat)
      ensures Put(Zeros(TAR_BLOCK_SIZE), 156, [0]) == Zeros(TAR_BLOCK_SIZE)
      ensures !(IsReg(mode) && IsDir(mode))
    {}

    /** th_is_dir. */
    method ThIsDir(ghost s: Stat) returns (r: bool)
      requires thBuf.Length == TAR_BLOCK_SIZE && thBuf[..] == StatHeader(s) && s.mode < Pow8(6)
      ensures r == IsDir(s.mode)
    {
      StatLaid(s);
      hide StatHeader, IntToOct, IntToOctNoNull, Pow8, StrToUll;
      assert thBuf[100..108] == thBuf[..][100..108] && thBuf[156] == thBuf[..][156] && thBuf[..100] == thBuf[..][..100];
      Powers();
      OctToInt(s.mode, 8);
      var isdir := IsDir(StrToUll(thBuf[100..108]));
      var flag := thBuf[156];
      r := flag == DIRTYPE || isdir || (flag == 0 && EndsWithSlash(CString(thBuf[..100])));
    }

    /** th_set_path. */
    method ThSetPath(path: seq<byte>, ghost s: Stat)
      requires thBuf.Length == TAR_BLOCK_SIZE && thBuf[..] == StatHeader(s) && s.mode < Pow8(6) && path != []
      modifies thBuf
      ensures thBuf[..] == Put(Put(StatHeader(s), 0, Printed(NameOf(path, IsDir(s.mode)), 100)), 345, PrefixOf(path))
    {
      hide Put, StatHeader, IsDir, Printed, SplitAt, Zeros, Pow8;
      var isDir := ThIsDir(s);
      var suffix: seq<byte> := if path[|path| - 1] != SLASH && isDir then [SLASH] else [];
      assert FullName(path, isDir) == path + suffix;
      if |path| > T_NAMELEN {
        SetLongPath(path, isDir, suffix, s);
      } else {
        Store(0, Printed(path + suffix, 100));
        Unwritten(thBuf[..], 345);
      }
    }

    method SetLongPath(path: seq<byte>, isDir: bool, suffix: seq<byte>, ghost s: Stat)
      requires thBuf.Length == TAR_BLOCK_SIZE && thBuf[..] == StatHeader(s) && |path| > T_NAMELEN
      requires FullName(path, isDir) == path + suffix
      modifies thBuf
      ensures thBuf[..] == Put(Put(StatHeader(s), 0, Printed(NameOf(path, isDir), 100)), 345, PrefixOf(path))
    {
      hide Put, StatHeader, IsDir, Printed, FullName, Zeros;
      var tmp := SlashFrom(path, |path| - T_NAMELEN - 1);
      if tmp == |path| {
        NoName(s);
        Unnamed(thBuf[..]);
        return;
      }
      assert FullName(path, isDir)[tmp + 1..] == path[tmp + 1..] + suffix;
      Store(0, Printed(path[tmp + 1..] + suffix, 100));
      Store(345, Printed(path, if tmp + 1 < 155 then tmp + 1 else 155));
    }

    lemma NoName(s: Stat)
      ensures StatHeader(s)[..100] == Zeros(100)
    {
      hide StatHeader, Zeros;
      StatLaid(s);
    }

    lemma Unwritten(b: seq<byte>, at: nat)
      requires at <= |b|
      ensures Put(b, at, []) == b
    {}

    lemma Unnamed(b: seq<byte>)
      requires |b| == TAR_BLOCK_SIZE && b[..100] == Zeros(100)
      ensures Put(Put(b, 0, Printed([], 100)), 345, []) == b
    {
      assert b[0] == b[..100][0];
    }

    /** th_crc_calc. */
    method ThCrcCalc() returns (sum: nat)
      requires thBuf.Length == TAR_BLOCK_SIZE
      ensures sum == Checksum(thBuf[..])
    {
      ghost var b := Put(thBuf[..], 148, Spaces(8));
      var total: int := 0;
      for i := 0 to TAR_BLOCK_SIZE
        invariant total == Sum(thBuf[..i])
      {
        assert thBuf[..i + 1][..i] == thBuf[..i];
        total := total + thBuf[i] as int;
      }
      ghost var all := total;
      for i := 0 to 8
        invariant total == all + 0x20 * i - Sum(thBuf[148..148 + i])
      {
        assert thBuf[148..148 + i + 1][..i] == thBuf[148..148 + i];
        total := total + (0x20 - thBuf[148 + i] as int);
      }
      assert thBuf[..TAR_BLOCK_SIZE] == thBuf[..];
      Blanked(thBuf[..], 148);
      sum := total;
    }

    /** th_set_ustar. */
    method ThSetUstar()
      requires thBuf.Length == TAR_BLOCK_SIZE
      modifies thBuf
      ensures thBuf[..] ==
        var b := Put(Put(old(thBuf[..]), 263, TVERSION), 257, TMAGIC); Put(b, 148, IntToOct(Checksum(b), 8))
      ensures thBuf[257..263] == TMAGIC && thBuf[263..265] == TVERSION
      ensures thBuf[148..156] == IntToOct(Checksum(thBuf[..]), 8)
    {
      hide Put, IntToOct, Sum;
      UstarLaid(thBuf[..]);
      Store(263, TVERSION);
      Store(257, TMAGIC);
      var sum := ThCrcCalc();
      Store(148, IntToOct(sum, 8));
      assert thBuf[..][257..263] == thBuf[257..263] && thBuf[..][263..265] == thBuf[263..265];
      assert thBuf[..][148..156] == thBuf[148..156];
    }

    /** The header of one entity, as add_header sets it. */
    method SetHeader(path: seq<byte>, s: Stat)
      requires thBuf.Length == TAR_BLOCK_SIZE && s.mode < Pow8(6) && path != []
      modifies thBuf
      ensures thBuf[..] == HeaderBytes(path, s) && Laid(thBuf[..], Cut99(NameOf(path, IsDir(s.mode))), s)
    {
      HeaderLaid(path, s);
      hide Laid, Put, IntToOct, Sum, StatHeader, Printed, IsDir, NameOf, PrefixOf;
      Clear();
      ThSetFromStat(s);
      ThSetPath(path, s);
      ThSetUstar();
    }
  }

  lemma {:induction false} SumConcat(a: seq<byte>, b: seq<byte>)
    ensures Sum(a + b) == Sum(a) + Sum(b)
  {
    if b == [] {
      assert a + b == a;
    } else {
      assert (a + b)[..|a + b| - 1] == a + b[..|b| - 1];
      SumConcat(a, b[..|b| - 1]);
    }
  }

  lemma SumOfOne(x: byte)
    ensures Sum([x]) == x && Sum([]) == 0
  {
    assert [x][..0] == [];
  }

  /** The checksum of a header is the sum of its other bytes and 256. */
  lemma ChecksumIs(b: seq<byte>)
    requires |b| == TAR_BLOCK_SIZE
    ensures Checksum(b) == Sum(b[..148]) + 256 + Sum(b[156..])
  {
    hide Sum;
    EightSpaces();
    SumOfThree(b[..148], Spaces(8), b[156..]);
  }

  lemma EightSpaces()
    ensures Sum(Spaces(8)) == 256
  {
    assert Spaces(8) == [0x20, 0x20, 0x20, 0x20] + [0x20, 0x20, 0x20, 0x20];
    var four: seq<byte> := [0x20, 0x20, 0x20, 0x20];
    SumConcat(four, four);
    assert four[..3] == [0x20, 0x20, 0x20] && four[..3][..2] == [0x20, 0x20] && four[..3][..2][..1] == [0x20];
    assert Sum([0x20]) == 0x20;
  }

  lemma SumOfThree(a: seq<byte>, b: seq<byte>, c: seq<byte>)
    ensures Sum(a + b + c) == Sum(a) + Sum(b) + Sum(c)
  {
    hide Sum;
    SumConcat(a + b, c);
    SumConcat(a, b);
  }

  lemma Blanked(b: seq<byte>, at: nat)
    requires at + 8 <= |b|
    ensures Sum(Put(b, at, Spaces(8))) == Sum(b) + 256 - Sum(b[at..at + 8])
  {
    hide Sum;
    EightSpaces();
    SumOfThree(b[..at], Spaces(8), b[at + 8..]);
    SumOfThree(b[..at], b[at..at + 8], b[at + 8..]);
    assert b == b[..at] + b[at..at + 8] + b[at + 8..];
  }
}
