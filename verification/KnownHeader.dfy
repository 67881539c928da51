/** The header of one file, byte by byte, as any other tar program writes or reads it. */
module KnownHeader {
  import opened Bits
  import opened TarHeader
  import opened TarWrite

  /** A file called "a" of five bytes, with mode 0100755, last modified at 1700000000. */
  const PATH: seq<byte> := [0x61]
  const STAT := Stat(0x81ED, 5, 1700000000)

  /** "100755", "0" twice, "5", "14524770400" and "7301", in octal and with blanks. */
  const MODE: seq<byte> := [0x31, 0x30, 0x30, 0x37, 0x35, 0x35, 0x20, 0]
  const ID: seq<byte> := [0x20, 0x20, 0x20, 0x20, 0x20, 0x30, 0x20, 0]
  const SIZE: seq<byte> := [0x20, 0x20, 0x20, 0x20, 0x20, 0x20, 0x20, 0x20, 0x20, 0x20, 0x35, 0x20]
  const TIME: seq<byte> := [0x31, 0x34, 0x35, 0x32, 0x34, 0x37, 0x37, 0x30, 0x34, 0x30, 0x30, 0x20]
  const SUM: seq<byte> := [0x20, 0x20, 0x37, 0x33, 0x30, 0x31, 0x20, 0]

  /** The bytes before the checksum: the name and the five numbers. */
  function Front(): seq<byte> {
    [0x61] + Zeros(99) + MODE + ID + ID + SIZE + TIME
  }

  /** The bytes after it: a regular file, no link target, "ustar", version "00", twice "root",
      and no devices or prefix. */
  function Back(): seq<byte> {
    [0x30] + Zeros(100) + [0x75, 0x73, 0x74, 0x61, 0x72, 0] + [0x30, 0x30]
    + [0x72, 0x6F, 0x6F, 0x74, 0] + Zeros(27) + [0x72, 0x6F, 0x6F, 0x74, 0] + Zeros(210)
  }

  lemma Numbers()
    ensures IntToOct(0x81ED, 8) == MODE && IntToOct(0, 8) == ID && IntToOctNoNull(5, 12) == SIZE
    ensures IntToOctNoNull(1700000000, 12) == TIME && IntToOct(3777, 8) == SUM
  {
    hide Octal, Spaces;
    OctalStep(0);
    OctalStep(5);
    OctalMode();
    OctalTime();
    OctalSum();
    SpacesAre();
  }

  lemma SpacesAre()
    ensures Spaces(5) == [0x20, 0x20, 0x20, 0x20, 0x20] && Spaces(2) == [0x20, 0x20]
    ensures Spaces(10) == [0x20, 0x20, 0x20, 0x20, 0x20, 0x20, 0x20, 0x20, 0x20, 0x20]
  {}

  lemma OctalStep(n: nat)
    ensures Octal(n) == if n < 8 then [0x30 + n as byte] else Octal(n / 8) + [0x30 + n % 8]
  {}

  lemma OctalMode()
    ensures Octal(33261) == [0x31, 0x30, 0x30, 0x37, 0x35, 0x35]
  {
    hide Octal;
    OctalStep(33261);
    OctalStep(4157);
    OctalStep(519);
    OctalStep(64);
    OctalStep(8);
    OctalStep(1);
  }

  lemma OctalTime()
    ensures Octal(1700000000) == [0x31, 0x34, 0x35, 0x32, 0x34, 0x37, 0x37, 0x30, 0x34, 0x30, 0x30]
  {
    hide Octal;
    OctalStep(1700000000);
    OctalStep(212500000);
    OctalStep(26562500);
    OctalStep(3320312);
    OctalStep(415039);
    OctalStep(51879);
    OctalStep(6484);
    OctalStep(810);
    OctalStep(101);
    OctalStep(12);
    OctalStep(1);
  }

  lemma OctalSum()
    ensures Octal(3777) == [0x37, 0x33, 0x30, 0x31]
  {
    hide Octal;
    OctalStep(3777);
    OctalStep(472);
    OctalStep(59);
    OctalStep(7);
  }

  lemma SumOfFour(a: byte, b: byte, c: byte, d: byte)
    ensures Sum([a, b, c, d]) == a + b + c + d && Sum([a, b, c, d, 0]) == a + b + c + d
  {
    hide Sum;
    SumOfOne(0);
    SumOfOne(a);
    SumOfOne(b);
    SumOfOne(c);
    SumOfOne(d);
    SumConcat([a], [b]);
    SumConcat([a, b], [c]);
    SumConcat([a, b, c], [d]);
    SumConcat([a, b, c, d], [0]);
    assert [a] + [b] == [a, b] && [a, b] + [c] == [a, b, c] && [a, b, c] + [d] == [a, b, c, d];
    assert [a, b, c, d] + [0] == [a, b, c, d, 0];
  }

  lemma {:induction false} SumOfZeros(n: nat)
    ensures Sum(Zeros(n)) == 0
  {
    if n == 0 {
    } else {
      SumOfZeros(n - 1);
      assert Zeros(n)[..n - 1] == Zeros(n - 1);
    }
  }

  lemma SumOfMode()
    ensures Sum(MODE) == 338
  {
    hide Sum;
    SumOfFour(0x31, 0x30, 0x30, 0x37);
    SumOfFour(0x35, 0x35, 0x20, 0);
    SumConcat([0x31, 0x30, 0x30, 0x37], [0x35, 0x35, 0x20, 0]);
    assert MODE == [0x31, 0x30, 0x30, 0x37] + [0x35, 0x35, 0x20, 0];
  }

  lemma SumOfId()
    ensures Sum(ID) == 240
  {
    hide Sum;
    SumOfFour(0x20, 0x20, 0x20, 0x20);
    SumOfFour(0x20, 0x30, 0x20, 0);
    SumConcat([0x20, 0x20, 0x20, 0x20], [0x20, 0x30, 0x20, 0]);
    assert ID == [0x20, 0x20, 0x20, 0x20] + [0x20, 0x30, 0x20, 0];
  }

  lemma SumOfSize()
    ensures Sum(SIZE) == 405
  {
    hide Sum;
    SumOfFour(0x20, 0x20, 0x20, 0x20);
    SumOfFour(0x20, 0x20, 0x20, 0x20);
    SumOfFour(0x20, 0x20, 0x35, 0x20);
    SumConcat([0x20, 0x20, 0x20, 0x20], [0x20, 0x20, 0x20, 0x20]);
    SumConcat([0x20, 0x20, 0x20, 0x20, 0x20, 0x20, 0x20, 0x20], [0x20, 0x20, 0x35, 0x20]);
    assert SIZE == [0x20, 0x20, 0x20, 0x20] + [0x20, 0x20, 0x20, 0x20] + [0x20, 0x20, 0x35, 0x20];
    assert [0x20, 0x20, 0x20, 0x20] + [0x20, 0x20, 0x20, 0x20] == [0x20, 0x20, 0x20, 0x20, 0x20, 0x20, 0x20, 0x20];
  }

  lemma SumOfTime()
    ensures Sum(TIME) == 594
  {
    hide Sum;
    SumOfFour(0x31, 0x34, 0x35, 0x32);
    SumOfFour(0x34, 0x37, 0x37, 0x30);
    SumOfFour(0x34, 0x30, 0x30, 0x20);
    SumConcat([0x31, 0x34, 0x35, 0x32], [0x34, 0x37, 0x37, 0x30]);
    SumConcat([0x31, 0x34, 0x35, 0x32, 0x34, 0x37, 0x37, 0x30], [0x34, 0x30, 0x30, 0x20]);
    assert TIME == [0x31, 0x34, 0x35, 0x32] + [0x34, 0x37, 0x37, 0x30] + [0x34, 0x30, 0x30, 0x20];
    assert [0x31, 0x34, 0x35, 0x32] + [0x34, 0x37, 0x37, 0x30] == [0x31, 0x34, 0x35, 0x32, 0x34, 0x37, 0x37, 0x30];
  }

  lemma SumOfFront()
    ensures Sum(Front()) == 1914 && |Front()| == 148
  {
    hide Sum, MODE, ID, SIZE, TIME;
    SumOfMode(); SumOfId(); SumOfSize(); SumOfTime();
    SumOfOne(0x61);
    SumOfZeros(99);
    var f := [0x61] + Zeros(99);
    SumConcat([0x61], Zeros(99));
    SumConcat(f, MODE);
    SumConcat(f + MODE, ID);
    SumConcat(f + MODE + ID, ID);
    SumConcat(f + MODE + ID + ID, SIZE);
    SumConcat(f + MODE + ID + ID + SIZE, TIME);
    FieldLengths();
  }

  lemma FieldLengths()
    ensures |MODE| == |ID| == |SUM| == 8 && |SIZE| == |TIME| == 12
  {}

  lemma SumOfBack()
    ensures Sum(Back()) == 1607 && |Back()| == 356
  {
    hide Sum;
    var magic: seq<byte>, version: seq<byte>, root: seq<byte> :=
      [0x75, 0x73, 0x74, 0x61, 0x72, 0], [0x30, 0x30], [0x72, 0x6F, 0x6F, 0x74, 0];
    SumOfFour(0x75, 0x73, 0x74, 0x61);
    SumOfFour(0x72, 0x6F, 0x6F, 0x74);
    SumOfOne(0x30);
    SumOfOne(0x72);
    SumOfOne(0);
    SumConcat([0x75, 0x73, 0x74, 0x61], [0x72]);
    SumConcat([0x75, 0x73, 0x74, 0x61, 0x72], [0]);
    SumConcat([0x30], [0x30]);
    assert [0x75, 0x73, 0x74, 0x61] + [0x72] == [0x75, 0x73, 0x74, 0x61, 0x72];
    assert magic == [0x75, 0x73, 0x74, 0x61, 0x72] + [0] && version == [0x30] + [0x30];
    SumOfZeros(100);
    SumOfZeros(27);
    SumOfZeros(210);
    var b := [0x30] + Zeros(100);
    SumConcat([0x30], Zeros(100));
    SumConcat(b, magic);
    SumConcat(b + magic, version);
    SumConcat(b + magic + version, root);
    SumConcat(b + magic + version + root, Zeros(27));
    SumConcat(b + magic + version + root + Zeros(27), root);
    SumConcat(b + magic + version + root + Zeros(27) + root, Zeros(210));
  }

  lemma Join(b: seq<byte>, h: nat, i: nat, j: nat)
    requires h <= i <= j <= |b|
    ensures b[h..j] == b[h..i] + b[i..j]
  {}

  /** A header with the fields of the file before its name and magic are set. */
  lemma FieldsOf(b: seq<byte>)
    requires StatFields(b, STAT)
    ensures b[100..108] == MODE && b[108..116] == ID && b[116..124] == ID && b[124..136] == SIZE && b[136..148] == TIME
    ensures [b[156]] == [0x30]
  {
    hide IntToOct, IntToOctNoNull, MODE, ID, SIZE, TIME;
    Numbers();
  }

  /** Name, version and magic in their places in `b`, and all else as it was. */
  function Named(b: seq<byte>): (r: seq<byte>)
    requires |b| == TAR_BLOCK_SIZE
    ensures |r| == TAR_BLOCK_SIZE
  {
    Put(Put(Put(b, 0, [0x61, 0]), 263, TVERSION), 257, TMAGIC)
  }

  lemma HeaderFrom()
    ensures var b := Named(StatHeader(STAT)); HeaderBytes(PATH, STAT) == Put(b, 148, IntToOct(Checksum(b), 8))
  {
    hide StatHeader, IntToOct, Checksum;
    assert !IsDir(STAT.mode) && PrefixOf(PATH) == [];
    assert Printed(NameOf(PATH, false), 100) == [0x61] + [0] == [0x61, 0];
    var b := Put(StatHeader(STAT), 0, [0x61, 0]);
    assert Put(b, 345, []) == b;
  }

  lemma NamedKeeps(b: seq<byte>)
    requires |b| == TAR_BLOCK_SIZE
    ensures Named(b)[..2] == [0x61, 0] && Named(b)[257..263] == TMAGIC && Named(b)[263..265] == TVERSION
    ensures forall i, j | 2 <= i <= j <= 257 || 265 <= i <= j <= TAR_BLOCK_SIZE :: Named(b)[i..j] == b[i..j]
  {
    hide Put;
    var b1 := Put(b, 0, [0x61, 0]);
    var b2 := Put(b1, 263, TVERSION);
    PutKeeps(b, 0, [0x61, 0]);
    PutKeeps(b1, 263, TVERSION);
    PutKeeps(b2, 257, TMAGIC);
    assert b1[0..2] == b1[..2] && b2[0..2] == b2[..2] && Named(b)[0..2] == Named(b)[..2];
  }

  lemma FrontStays(b: seq<byte>)
    requires |b| == TAR_BLOCK_SIZE && b[..100] == Zeros(100) && b[100..108] == MODE && b[108..116] == ID
    requires b[116..124] == ID && b[124..136] == SIZE && b[136..148] == TIME
    ensures Named(b)[..148] == Front()
  {
    hide Named, MODE, ID, SIZE, TIME;
    NamedKeeps(b);
    var n := Named(b);
    assert b[2..100] == Zeros(98) by { assert b[2..100] == b[..100][2..]; }
    Join(n, 0, 2, 100);
    assert [0x61, 0] + Zeros(98) == [0x61] + Zeros(99);
    Join(n, 0, 100, 108);
    Join(n, 0, 108, 116);
    Join(n, 0, 116, 124);
    Join(n, 0, 124, 136);
    Join(n, 0, 136, 148);
    assert n[0..2] == n[..2] && n[0..148] == n[..148];
  }

  lemma BackStays(b: seq<byte>)
    requires |b| == TAR_BLOCK_SIZE && [b[156]] == [0x30] && b[157..265] == Zeros(108)
    requires b[265..270] == [0x72, 0x6F, 0x6F, 0x74, 0] && b[270..297] == Zeros(27)
    requires b[297..302] == [0x72, 0x6F, 0x6F, 0x74, 0] && b[302..512] == Zeros(210)
    ensures Named(b)[156..] == Back()
  {
    hide Named;
    NamedKeeps(b);
    var n := Named(b);
    assert b[157..257] == Zeros(100) by { assert b[157..257] == b[157..265][..100]; }
    assert n[156..157] == b[156..157] == [0x30];
    Join(n, 156, 157, 257);
    Join(n, 156, 257, 263);
    Join(n, 156, 263, 265);
    Join(n, 156, 265, 270);
    Join(n, 156, 270, 297);
    Join(n, 156, 297, 302);
    Join(n, 156, 302, 512);
    assert n[156..512] == n[156..];
  }

  /** The header before its checksum is set. */
  lemma Unsummed() returns (b: seq<byte>)
    ensures b == Named(StatHeader(STAT))
    ensures |b| == TAR_BLOCK_SIZE && b[..148] == Front() && b[156..] == Back()
    ensures HeaderBytes(PATH, STAT) == Put(b, 148, IntToOct(Checksum(b), 8))
  {
    hide StatHeader, Named, MODE, ID, SIZE, TIME, IntToOct, Checksum, HeaderBytes, STAT, PATH;
    b := Named(StatHeader(STAT));
    StatLaid(STAT);
    FieldsOf(StatHeader(STAT));
    FrontStays(StatHeader(STAT));
    BackStays(StatHeader(STAT));
    HeaderFrom();
  }

  /** Every byte of the header, the checksum among them. */
  lemma HeaderIs()
    ensures HeaderBytes(PATH, STAT) == Front() + SUM + Back()
  {
    hide StatHeader, Named, Front, Back, Sum, HeaderBytes, STAT, PATH;
    var b := Unsummed();
    ChecksumIs(b);
    SumOfFront();
    SumOfBack();
    Numbers();
  }

  /** A header made of its fields in their order (POSIX 1003.1-1990), of which only the widths
      matter: the extractor finds each of them. */
  lemma FieldsFound(name: seq<byte>, mode: seq<byte>, uid: seq<byte>, gid: seq<byte>, size: seq<byte>, time: seq<byte>,
                    sum: seq<byte>, kind: byte, link: seq<byte>, magic: seq<byte>, version: seq<byte>, user: seq<byte>,
                    group: seq<byte>, major: seq<byte>, minor: seq<byte>, rest: seq<byte>)
    requires |name| == |link| == 100 && |mode| == |uid| == |gid| == |sum| == 8 && |size| == |time| == 12
    requires |magic| == 6 && |version| == 2 && |user| == |group| == 32 && |major| == |minor| == 8 && |rest| == 167
    ensures var b := name + mode + uid + gid + size + time + sum + [kind] + link + magic + version + user + group
        + major + minor + rest;
      && |b| == TAR_BLOCK_SIZE
      && var h := Translated(b);
      && h.filename == Text(name) && h.filemode == Number(mode) && h.uid == Number(uid) && h.gid == Number(gid)
      && h.filesize == Number(size) && h.mtime == Number(time) && h.checksum == Number(sum)
      && h.kind == TypeFromChar(kind) && h.linkTarget == Text(link) && h.ustar == Text(magic)
      && h.version == Text(version)
      && h.owner == if Text(magic) == [0x75, 0x73, 0x74, 0x61, 0x72] then
           Owner(Text(user), Text(group), Number(major), Number(minor))
         else Owner([], [], 0, 0)
  {
    hide Text, Number, TypeFromChar;
    var b := name + mode + uid + gid + size + time + sum + [kind] + link + magic + version + user + group
      + major + minor + rest;
    assert b[..100] == name && b[100..108] == mode && b[108..116] == uid && b[116..124] == gid;
    assert b[124..136] == size && b[136..148] == time && b[148..156] == sum && b[156] == kind;
    assert b[157..257] == link && b[257..263] == magic && b[263..265] == version;
    assert b[265..297] == user && b[297..329] == group && b[329..337] == major && b[337..345] == minor;
  }

  /** The types of entries by their letters. */
  lemma TypeLetters()
    ensures TypeFromChar(0) == TypeFromChar('0' as int) == Normal && TypeFromChar('1' as int) == HardLink
    ensures TypeFromChar('2' as int) == Symbolic && TypeFromChar('3' as int) == TypeFromChar('4' as int) == CharSpecial
    ensures TypeFromChar('5' as int) == Directory && TypeFromChar('6' as int) == Fifo
    ensures TypeFromChar('7' as int) == Contiguous
    ensures TypeFromChar('g' as int) == GlobalExtended && TypeFromChar('x' as int) == Extended
    ensures forall c: byte :: TypeFromChar(c) == Other <==>
      c != 0 && c != 'g' as int && c != 'x' as int && !('0' as int <= c <= '7' as int)
  {}

  lemma TextOf(w: seq<byte>, n: nat)
    requires w != [] && 0 !in w && w[0] != 0x20 && w[|w| - 1] != 0x20
    ensures Text(w + Zeros(n)) == w && Text(Zeros(n)) == []
  {
    hide Trimmed, CString;
    assert w[0] in w && w[|w| - 1] in w;
    var f := w + Zeros(n);
    TrimmedIs(f, 0, |w| - 1);
    assert f[0..|w|] == w;
    WholeString(w);
    TrimmedEmpty(Zeros(n));
    NoText();
  }

  lemma NoText()
    ensures CString([]) == []
  {}

  lemma ZeroNumber()
    ensures Number(Zeros(8)) == 0
  {
    hide Trimmed;
    TrimmedEmpty(Zeros(8));
  }

  /** What the extractor makes of that header. */
  lemma HeaderRead()
    ensures Translated(HeaderBytes(PATH, STAT)) ==
      EntryHeader([0x61], 0x81ED, 0, 0, 5, 1700000000, 3777, Normal, [], [0x75, 0x73, 0x74, 0x61, 0x72], [0x30, 0x30],
                  Owner([0x72, 0x6F, 0x6F, 0x74], [0x72, 0x6F, 0x6F, 0x74], 0, 0))
  {
    hide HeaderBytes, Text, Number, Sum, Translated, MODE, ID, SIZE, TIME, SUM;
    var root: seq<byte>, rootField := [0x72, 0x6F, 0x6F, 0x74], [0x72, 0x6F, 0x6F, 0x74] + Zeros(28);
    HeaderIs();
    FieldLengths();
    FieldsFound([0x61] + Zeros(99), MODE, ID, ID, SIZE, TIME, SUM, 0x30, Zeros(100), [0x75, 0x73, 0x74, 0x61, 0x72, 0],
                [0x30, 0x30], rootField, rootField, Zeros(8), Zeros(8), Zeros(167));
    InOrder();
    NumbersBack();
    TextOf([0x61], 99);
    TextOf([0x75, 0x73, 0x74, 0x61, 0x72], 1);
    TextOf([0x30, 0x30], 0);
    TextOf(root, 28);
    TextOf(root, 100);
    ZeroNumber();
    assert [0x75, 0x73, 0x74, 0x61, 0x72] + Zeros(1) == [0x75, 0x73, 0x74, 0x61, 0x72, 0];
    assert [0x30, 0x30] + Zeros(0) == [0x30, 0x30];
  }

  lemma NumbersBack()
    ensures Number(MODE) == 0x81ED && Number(ID) == 0 && Number(SIZE) == 5 && Number(TIME) == 1700000000
    ensures Number(SUM) == 3777
  {
    hide IntToOct, IntToOctNoNull, Number, MODE, ID, SIZE, TIME, SUM, Pow8;
    Numbers();
    Powers();
    IntToOctReads(0x81ED, 8);
    IntToOctReads(0, 8);
    IntToOctReads(3777, 8);
    IntToOctNoNullReads(5, 12);
    IntToOctNoNullReads(1700000000, 12);
  }

  lemma InOrder()
    ensures var root := [0x72, 0x6F, 0x6F, 0x74] + Zeros(28);
      Front() + SUM + Back() ==
      [0x61] + Zeros(99) + MODE + ID + ID + SIZE + TIME + SUM + [0x30] + Zeros(100)
      + [0x75, 0x73, 0x74, 0x61, 0x72, 0] + [0x30, 0x30] + root + root + Zeros(8) + Zeros(8) + Zeros(167)
  {
    hide MODE, ID, SIZE, TIME, SUM;
  }

  /** A directory's mode and type, and its name with a slash. */
  lemma DirectoryKnown()
    ensures IntToOct(0x41ED, 8) == [0x20, 0x34, 0x30, 0x37, 0x35, 0x35, 0x20, 0]
    ensures Type(0x41ED) == ['5' as int] && Type(0x81ED) == ['0' as int]
    ensures FullName([0x64], true) == [0x64, '/' as int] && FullName([0x64], false) == [0x64]
  {
    hide Octal;
    OctalStep(0x41ED);
    OctalStep(2109);
    OctalStep(263);
    OctalStep(32);
    OctalStep(4);
    assert Spaces(1) == [0x20];
  }

  lemma DigitsStep(s: seq<byte>, acc: nat)
    requires s != []
    ensures Digits(s, acc) == if OctalDigit(s[0]) then Digits(s[1..], 8 * acc + (s[0] as nat - 0x30)) else acc
    ensures Digits([], acc) == acc
  {}

  /** Numeric fields that are not quite octal: a sign wraps round, other characters end the
      number, base 256 is not understood. */
  lemma OddNumbers()
    ensures StrToUll([0x2D, 0x31]) == 0xFFFF_FFFF_FFFF_FFFF && StrToUll([0x2B, 0x31]) == 1
    ensures StrToUll([0x31, 0x38]) == 1 && StrToUll([0x78]) == 0 && StrToUll([]) == 0
    ensures forall w: seq<byte> :: Number([0x80] + w) == 0
  {
    hide Digits;
    DigitsStep([0x31], 0);
    DigitsStep([0x31, 0x38], 0);
    DigitsStep([0x38], 1);
    DigitsStep([0x78], 0);
    assert [0x31][1..] == [] && [0x31, 0x38][1..] == [0x38];
    assert [0x2D, 0x31][1..] == [0x31] && [0x2B, 0x31][1..] == [0x31];
  }
}
