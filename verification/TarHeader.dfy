/** Header blocks as the extractor reads them (parse_header, trim and translate_header). */
module TarHeader {
  import opened Bits

  const TAR_BLOCK_SIZE := 512

  predicate Blank(c: byte) { c == 0 || c == 0x20 }

  /** Text without the blanks around it. */
  function Trimmed(s: seq<byte>): (r: seq<byte>)
    ensures |r| <= |s| && (r != [] ==> !Blank(r[0]) && !Blank(r[|r| - 1]))
  {
    if s == [] then []
    else if Blank(s[0]) then Trimmed(s[1..])
    else if Blank(s[|s| - 1]) then Trimmed(s[..|s| - 1])
    else s
  }

  /** Up to the first zero. */
  function CString(s: seq<byte>): (r: seq<byte>)
    ensures r <= s && 0 !in r
  {
    if s == [] || s[0] == 0 then [] else [s[0]] + CString(s[1..])
  }

  lemma {:induction false} TrimmedLeft(s: seq<byte>, i: nat)
    requires i <= |s| && forall k | 0 <= k < i :: Blank(s[k])
    ensures Trimmed(s) == Trimmed(s[i..])
  {
    if i == 0 {
      assert s[0..] == s;
    } else {
      TrimmedLeft(s[1..], i - 1);
      assert s[1..][i - 1..] == s[i..];
    }
  }

  lemma {:induction false} TrimmedRight(s: seq<byte>, j: nat)
    requires 0 < j <= |s| && !Blank(s[0]) && forall k | j <= k < |s| :: Blank(s[k])
    ensures Trimmed(s) == Trimmed(s[..j])
    decreases |s|
  {
    if j == |s| {
      assert s[..j] == s;
    } else {
      TrimmedRight(s[..|s| - 1], j);
      assert s[..|s| - 1][..j] == s[..j];
    }
  }

  lemma TrimmedIs(s: seq<byte>, i: nat, j: nat)
    requires i <= j < |s| && !Blank(s[i]) && !Blank(s[j])
    requires (forall k | 0 <= k < i :: Blank(s[k])) && forall k | j < k < |s| :: Blank(s[k])
    ensures Trimmed(s) == s[i..j + 1] != []
  {
    TrimmedLeft(s, i);
    forall k | j + 1 - i <= k < |s[i..]| ensures Blank(s[i..][k]) {
      assert s[i..][k] == s[i + k];
    }
    TrimmedRight(s[i..], j + 1 - i);
    assert s[i..][..j + 1 - i] == s[i..j + 1];
  }

  lemma TrimmedEmpty(s: seq<byte>)
    requires forall k | 0 <= k < |s| :: Blank(s[k])
    ensures Trimmed(s) == []
  {
    TrimmedLeft(s, |s|);
  }

  /** Trims in place: where the text begins, which now ends with a zero; -1 for no text. */
  method Trim(raw: array<byte>, length: nat) returns (at: int)
    requires 0 < length < raw.Length
    modifies raw
    ensures raw[0] == old(raw[0])
    ensures var t := Trimmed(old(raw[..length]));
      if t == [] then at == -1
      else 0 <= at && at + |t| <= length && raw[at..at + |t|] == t && raw[at + |t|] == 0
  {
    hide Trimmed;
    ghost var s := raw[..length];
    var i, j := 0, length - 1;
    while Blank(raw[i])
      invariant 0 <= i < length && forall k | 0 <= k < i :: Blank(s[k])
      decreases length - i
    {
      i := i + 1;
      if i >= length {
        TrimmedEmpty(s);
        return -1;
      }
    }
    while Blank(raw[j])
      invariant i <= j < length && forall k | j < k < length :: Blank(s[k])
      decreases j
    {
      j := j - 1;
      if j <= i {
        break;
      }
    }
    TrimmedIs(s, i, j);
    raw[j + 1] := 0;
    at := i;
    assert raw[i..j + 1] == s[i..j + 1];
  }

  const ULLONG_MAX := 0xFFFF_FFFF_FFFF_FFFF

  predicate Space(c: byte) { c == 0x20 || 9 <= c <= 13 }

  predicate OctalDigit(c: byte) { 0x30 <= c <= 0x37 }

  /** The octal digits at the start of a text, most significant first, after `acc`. */
  function Digits(s: seq<byte>, acc: nat): nat
    decreases |s|
  {
    if s == [] || !OctalDigit(s[0]) then acc else Digits(s[1..], 8 * acc + (s[0] as nat - 0x30))
  }

  function SkipSpace(s: seq<byte>): (r: seq<byte>)
    ensures |r| <= |s|
  {
    if s == [] || !Space(s[0]) then s else SkipSpace(s[1..])
  }

  /** strtoull with base 8: spaces, a sign, digits; a minus sign wraps round. */
  function StrToUll(s: seq<byte>): nat {
    var t := SkipSpace(s);
    if t == [] then 0
    else if t[0] == 0x2D then Negated(Saturated(Digits(t[1..], 0)))
    else Saturated(Digits(if t[0] == 0x2B then t[1..] else t, 0))
  }

  function Saturated(n: nat): nat { if n > ULLONG_MAX then ULLONG_MAX else n }

  function Negated(n: nat): nat
    requires n <= ULLONG_MAX
  {
    if n == 0 then 0 else ULLONG_MAX + 1 - n
  }

  /** A numeric field; numbers in base 256 are not supported and read as 0. */
  function Number(field: seq<byte>): nat
    requires field != []
  {
    if field[0] >= 0x80 then 0 else StrToUll(Trimmed(field))
  }

  function Text(field: seq<byte>): seq<byte> { CString(Trimmed(field)) }

  datatype EntryType = Normal | HardLink | Symbolic | CharSpecial | Directory | Fifo | Contiguous
    | GlobalExtended | Extended | Other

  /** get_type_from_char; a block special file is reported as a character special one. */
  function TypeFromChar(c: byte): EntryType {
    if c == 0 || c == 0x30 then Normal
    else if c == 0x31 then HardLink
    else if c == 0x32 then Symbolic
    else if c == 0x33 || c == 0x34 then CharSpecial
    else if c == 0x35 then Directory
    else if c == 0x36 then Fifo
    else if c == 0x37 then Contiguous
    else if c == 0x67 then GlobalExtended
    else if c == 0x78 then Extended
    else Other
  }

  /** A translated header (header_translated_t). */
  datatype EntryHeader = EntryHeader(
    filename: seq<byte>,
    filemode: nat,
    uid: nat,
    gid: nat,
    filesize: nat,
    mtime: nat,
    checksum: nat,
    kind: EntryType,
    linkTarget: seq<byte>,
    ustar: seq<byte>,
    version: seq<byte>,
    owner: Owner)

  /** What only headers with the magic "ustar" have: user and group, and device numbers. */
  datatype Owner = Owner(user: seq<byte>, group: seq<byte>, major: nat, minor: nat)

  const USTAR: seq<byte> := [0x75, 0x73, 0x74, 0x61, 0x72]

  function Translated(b: seq<byte>): EntryHeader
    requires |b| == TAR_BLOCK_SIZE
  {
    EntryHeader(Text(b[..100]), Number(b[100..108]), Number(b[108..116]), Number(b[116..124]), Number(b[124..136]),
                Number(b[136..148]), Number(b[148..156]), TypeFromChar(b[156]), Text(b[157..257]), Text(b[257..263]),
                Text(b[263..265]), OwnerOf(b))
  }

  function OwnerOf(b: seq<byte>): Owner
    requires |b| == TAR_BLOCK_SIZE
  {
    if Text(b[257..263]) != USTAR then Owner([], [], 0, 0)
    else Owner(Text(b[265..297]), Text(b[297..329]), Number(b[329..337]), Number(b[337..345]))
  }

  /** Every text leaves room for its terminator in the array it is copied to: 101 bytes for the
      name and the link target, 6 for the magic, 3 for the version, 32 for user and group. */
  predicate Fits(h: EntryHeader) {
    && |h.filename| < 101 && |h.linkTarget| < 101 && |h.ustar| < 6 && |h.version| < 3
    && |h.owner.user| < 32 && |h.owner.group| < 32
  }

  /** A field is full of text. */
  predicate Full(f: seq<byte>) {
    f != [] && 0 !in f && f[0] != 0x20 && f[|f| - 1] != 0x20
  }

  lemma FullText(f: seq<byte>)
    ensures |Text(f)| <= |f|
    ensures f != [] ==> (|Text(f)| == |f| <==> Full(f))
  {
    hide Trimmed, CString;
    if Full(f) {
      assert f[0] in f && f[|f| - 1] in f;
      TrimmedIs(f, 0, |f| - 1);
      assert f[0..|f|] == f;
      WholeString(f);
    } else if f != [] && |Text(f)| == |f| {
      TrimmedWhole(f);
    }
  }

  lemma TrimmedWhole(f: seq<byte>)
    requires |Trimmed(f)| == |f|
    ensures Trimmed(f) == f
  {}

  lemma {:induction false} WholeString(s: seq<byte>)
    requires 0 !in s
    ensures CString(s) == s
  {
    if s == [] {
    } else {
      assert s[0] in s && forall c <- s[1..] :: c in s;
      WholeString(s[1..]);
      assert s == [s[0]] + s[1..];
    }
  }

  /** The texts fit their arrays if and only if neither the magic nor, with the magic "ustar",
      the user or the group fill up their fields: the arrays of the others are larger. */
  lemma FitsIff(b: seq<byte>)
    requires |b| == TAR_BLOCK_SIZE
    ensures Fits(Translated(b)) <==>
      !Full(b[257..263]) && (Text(b[257..263]) == USTAR ==> !Full(b[265..297]) && !Full(b[297..329]))
  {
    hide Text, Number, TypeFromChar, Full;
    FullText(b[..100]);
    FullText(b[157..257]);
    FullText(b[257..263]);
    FullText(b[263..265]);
    FullText(b[265..297]);
    FullText(b[297..329]);
  }

  /** A terminated text can be read without knowing its length. */
  lemma {:induction false} DigitsStop(t: seq<byte>, rest: seq<byte>, acc: nat)
    requires rest != [] && rest[0] == 0
    ensures Digits(t + rest, acc) == Digits(t, acc)
    decreases |t|
  {
    if t == [] {
      assert t + rest == rest;
    } else if OctalDigit(t[0]) {
      assert (t + rest)[1..] == t[1..] + rest;
      DigitsStop(t[1..], rest, 8 * acc + (t[0] as nat - 0x30));
    }
  }

  lemma {:induction false} SkipStops(t: seq<byte>, rest: seq<byte>)
    requires rest != [] && rest[0] == 0
    ensures SkipSpace(t + rest) == SkipSpace(t) + rest
  {
    if t == [] {
      assert t + rest == rest;
    } else {
      assert (t + rest)[1..] == t[1..] + rest;
      SkipStops(t[1..], rest);
    }
  }

  lemma StrToUllStops(t: seq<byte>, rest: seq<byte>)
    requires rest != [] && rest[0] == 0
    ensures StrToUll(t + rest) == StrToUll(t)
  {
    hide Digits, SkipSpace;
    SkipStops(t, rest);
    var u := SkipSpace(t);
    if u == [] {
      assert u + rest == rest;
      NoDigits(rest);
    } else {
      assert (u + rest)[1..] == u[1..] + rest;
      DigitsStop(u[1..], rest, 0);
      DigitsStop(u, rest, 0);
    }
  }

  lemma NoDigits(rest: seq<byte>)
    requires rest != [] && rest[0] == 0
    ensures Digits(rest, 0) == 0
  {}

  lemma {:induction false} CStringStops(t: seq<byte>, rest: seq<byte>)
    requires rest != [] && rest[0] == 0
    ensures CString(t + rest) == CString(t)
  {
    if t == [] {
      assert t + rest == rest;
    } else {
      assert (t + rest)[1..] == t[1..] + rest;
      CStringStops(t[1..], rest);
    }
  }

  /** Copies a field into the buffer that it is trimmed in. */
  method CopyField(raw: array<byte>, at: nat, length: nat, buffer: array<byte>)
    requires at + length <= raw.Length && length <= buffer.Length && raw != buffer
    modifies buffer
    ensures buffer[..length] == raw[at..at + length]
  {
    for i := 0 to length
      invariant buffer[..i] == raw[at..at + i]
    {
      buffer[i] := raw[at + i];
    }
  }

  method ParseNumber(raw: array<byte>, at: nat, length: nat, buffer: array<byte>) returns (n: nat)
    requires 0 < length < buffer.Length && at + length <= raw.Length && raw != buffer
    modifies buffer
    ensures n == Number(raw[at..at + length])
  {
    hide StrToUll, Trimmed;
    CopyField(raw, at, length, buffer);
    var start := Trim(buffer, length);
    ghost var t := Trimmed(raw[at..at + length]);
    if buffer[0] >= 0x80 {
      return 0;
    }
    if start == -1 {
      NoText();
      return 0;
    }
    assert buffer[start..] == t + buffer[start + |t|..];
    StrToUllStops(t, buffer[start + |t|..]);
    n := StrToUll(buffer[start..]);
  }

  lemma NoText()
    ensures StrToUll([]) == 0
  {}

  method ParseText(raw: array<byte>, at: nat, length: nat, buffer: array<byte>) returns (s: seq<byte>)
    requires 0 < length < buffer.Length && at + length <= raw.Length && raw != buffer
    modifies buffer
    ensures s == Text(raw[at..at + length])
  {
    hide CString, Trimmed;
    CopyField(raw, at, length, buffer);
    var start := Trim(buffer, length);
    ghost var t := Trimmed(raw[at..at + length]);
    if start == -1 {
      assert CString([]) == [];
      return [];
    }
    assert buffer[start..] == t + buffer[start + |t|..];
    CStringStops(t, buffer[start + |t|..]);
    s := CString(buffer[start..]);
  }

  lemma SameSlices(raw: array<byte>, b: seq<byte>)
    requires raw.Length >= TAR_BLOCK_SIZE && b == raw[..TAR_BLOCK_SIZE]
    ensures b[..100] == raw[0..100] && b[100..108] == raw[100..108] && b[108..116] == raw[108..116]
    ensures b[116..124] == raw[116..124] && b[124..136] == raw[124..136] && b[136..148] == raw[136..148]
    ensures b[148..156] == raw[148..156] && b[257..263] == raw[257..263] && b[156] == raw[156]
    ensures b[157..257] == raw[157..257] && b[263..265] == raw[263..265] && b[265..297] == raw[265..297]
    ensures b[297..329] == raw[297..329] && b[329..337] == raw[329..337] && b[337..345] == raw[337..345]
  {}

  /** The last part of translate_header. */
  method TranslateOwner(raw: array<byte>, ustar: seq<byte>, buffer: array<byte>) returns (o: Owner)
    requires raw.Length >= TAR_BLOCK_SIZE && buffer.Length == 101 && raw != buffer && ustar == Text(raw[257..263])
    modifies buffer
    ensures o == OwnerOf(raw[..TAR_BLOCK_SIZE])
  {
    hide Text, Number, TypeFromChar;
    SameSlices(raw, raw[..TAR_BLOCK_SIZE]);
    if ustar != USTAR {
      return Owner([], [], 0, 0);
    }
    var user := ParseText(raw, 265, 32, buffer);
    var group := ParseText(raw, 297, 32, buffer);
    var major := ParseNumber(raw, 329, 8, buffer);
    var minor := ParseNumber(raw, 337, 8, buffer);
    o := Owner(user, group, major, minor);
  }

  method TranslateNumbers(raw: array<byte>, buffer: array<byte>)
    returns (filemode: nat, uid: nat, gid: nat, filesize: nat, mtime: nat, checksum: nat)
    requires raw.Length >= TAR_BLOCK_SIZE && buffer.Length == 101 && raw != buffer
    modifies buffer
    ensures filemode == Number(raw[100..108]) && uid == Number(raw[108..116]) && gid == Number(raw[116..124])
    ensures filesize == Number(raw[124..136]) && mtime == Number(raw[136..148]) && checksum == Number(raw[148..156])
  {
    hide Number;
    filemode := ParseNumber(raw, 100, 8, buffer);
    uid := ParseNumber(raw, 108, 8, buffer);
    gid := ParseNumber(raw, 116, 8, buffer);
    filesize := ParseNumber(raw, 124, 12, buffer);
    mtime := ParseNumber(raw, 136, 12, buffer);
    checksum := ParseNumber(raw, 148, 8, buffer);
  }

  /** translate_header. */
  method TranslateHeader(raw: array<byte>) returns (h: EntryHeader)
    requires raw.Length >= TAR_BLOCK_SIZE
    ensures h == Translated(raw[..TAR_BLOCK_SIZE])
  {
    hide Text, Number, TypeFromChar, OwnerOf;
    var buffer := new byte[101];
    ghost var b := raw[..TAR_BLOCK_SIZE];
    SameSlices(raw, b);
    var filename := ParseText(raw, 0, 100, buffer);
    var filemode, uid, gid, filesize, mtime, checksum := TranslateNumbers(raw, buffer);
    var linkTarget := ParseText(raw, 157, 100, buffer);
    var ustar := ParseText(raw, 257, 6, buffer);
    var version := ParseText(raw, 263, 2, buffer);
    var owner := TranslateOwner(raw, ustar, buffer);
    h := EntryHeader(filename, filemode, uid, gid, filesize, mtime, checksum, TypeFromChar(raw[156]), linkTarget, ustar,
                     version, owner);
  }
}
