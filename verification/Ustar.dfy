/** The ustar archive headers of lib/ustar.c, with the octal output of lib/stdio.c. */
module Ustar {
  import opened Common

  const HEADER_SIZE := 512
  const ULONG_MAX := 0xFFFF_FFFF
  const INT_MAX := 0x7FFF_FFFF

  const SLASH: Byte := 47
  const DOT: Byte := 46
  const ZERO: Byte := 48    // the digit
  const SPACE: Byte := 32

  const REGULAR: Byte := 48   // USTAR_REGULAR
  const DIRECTORY: Byte := 53 // USTAR_DIRECTORY

  /** "ustar", "root" and "0000000" */
  const MAGIC: seq<Byte> := [117, 115, 116, 97, 114]
  const ROOT: seq<Byte> := [114, 111, 111, 116]
  const NOBODY: seq<Byte> := [48, 48, 48, 48, 48, 48, 48]

  // The fields of struct ustar_header: where they start
  const NAME := 0
  const MODE := 100
  const UID := 108
  const GID := 116
  const SIZE := 124
  const MTIME := 136
  const CHKSUM := 148
  const TYPEFLAG := 156
  const MAGIC_AT := 257
  const VERSION := 263
  const UNAME := 265
  const GNAME := 297
  const PREFIX := 345

  // ---- Names ------------------------------------------------------------------------------------

  predicate StartsWith(s: seq<Byte>, prefix: seq<Byte>) {
    |prefix| <= |s| && s[..|prefix|] == prefix
  }

  predicate Antisocial(s: seq<Byte>) {
    StartsWith(s, [SLASH]) || StartsWith(s, [DOT, SLASH]) || StartsWith(s, [DOT, DOT, SLASH])
  }

  /** Everything behind the first slash. */
  function AfterSlash(s: seq<Byte>): (r: seq<Byte>)
    requires s != []
    ensures |r| < |s|
  {
    if s[0] == SLASH || |s| == 1 then s[1..] else AfterSlash(s[1..])
  }

  /** strip_antisocial_prefixes() */
  function Strip(s: seq<Byte>): seq<Byte>
    decreases |s|
  {
    if s != [] && Antisocial(s) then Strip(AfterSlash(s))
    else if s == [] || s == [DOT, DOT] then [DOT]
    else s
  }

  /** What is left is never empty nor "..", begins with none of the prefixes, and is the end of
      the name given or ".". */
  lemma {:induction false} StrippedIsSafe(s: seq<Byte>)
    ensures Strip(s) != [] && Strip(s) != [DOT, DOT] && !Antisocial(Strip(s))
    ensures Strip(s) == [DOT] || (|Strip(s)| <= |s| && Strip(s) == s[|s| - |Strip(s)|..])
    decreases |s|
  {
    if s != [] && Antisocial(s) {
      var t := AfterSlash(s);
      AfterSlashIs(s);
      StrippedIsSafe(t);
      assert Strip(s) != [DOT] ==> t[|t| - |Strip(t)|..] == s[|s| - |t|..][|t| - |Strip(t)|..] == s[|s| - |Strip(s)|..];
    } else {
      assert !StartsWith([DOT], [SLASH]) by {
        assert [DOT][..1][0] != [SLASH][0];
      }
      assert !Antisocial(s) && s[0..] == s;
    }
  }

  lemma {:induction false} AfterSlashIs(s: seq<Byte>)
    requires s != []
    ensures AfterSlash(s) == s[|s| - |AfterSlash(s)|..]
    decreases |s|
  {
    if s[0] != SLASH && |s| > 1 {
      AfterSlashIs(s[1..]);
    }
  }

  lemma AfterFirst(s: seq<Byte>)
    ensures AfterSlash([SLASH] + s) == s && AfterSlash([DOT, SLASH] + s) == s && AfterSlash([DOT, DOT, SLASH] + s) == s
  {
    assert ([SLASH] + s)[1..] == s;
    assert ([DOT, SLASH] + s)[1..] == [SLASH] + s;
    assert ([DOT, DOT, SLASH] + s)[1..] == [DOT, SLASH] + s;
  }

  /** Exactly what is stripped: "/", "./" and "../" in front go, an empty name and ".." become ".",
      and any other name stays as it is. */
  lemma StripIs(s: seq<Byte>)
    ensures Strip([SLASH] + s) == Strip([DOT, SLASH] + s) == Strip([DOT, DOT, SLASH] + s) == Strip(s)
    ensures Strip([]) == Strip([DOT, DOT]) == [DOT]
    ensures s != [] && s != [DOT, DOT] && !Antisocial(s) ==> Strip(s) == s
  {
    AfterFirst(s);
    assert ([SLASH] + s)[..1] == [SLASH];
    assert ([DOT, SLASH] + s)[..2] == [DOT, SLASH];
    assert ([DOT, DOT, SLASH] + s)[..3] == [DOT, DOT, SLASH];
    assert !Antisocial([DOT, DOT]) by {
      assert [DOT, DOT][..1][0] != [SLASH][0] && [DOT, DOT][..2][1] != [DOT, SLASH][1];
    }
  }

  /** Stripping is idempotent. */
  lemma StripTwice(s: seq<Byte>)
    ensures Strip(Strip(s)) == Strip(s)
  {
    StrippedIsSafe(s);
  }

  // ---- Octal numbers ------------------------------------------------------------------------------

  function Pow8(w: nat): nat {
    if w == 0 then 1 else 8 * Pow8(w - 1)
  }

  /** The w low octal digits of v. */
  function Octal(v: nat, w: nat): (r: seq<Byte>)
    ensures |r| == w
  {
    if w == 0 then [] else Octal(v / 8, w - 1) + [ZERO + v % 8]
  }

  /** parse_octal_field() from offset i on, `value` being what came before */
  function ParseOctal(s: seq<Byte>, i: nat, value: nat): Option<nat>
    decreases |s| - i
  {
    if i >= |s| then None
    else if ZERO <= s[i] < ZERO + 8 then
      if value > ULONG_MAX / 8 then None else ParseOctal(s, i + 1, s[i] - ZERO + value * 8)
    else if s[i] == SPACE || s[i] == 0 then (if i > 0 then Some(value) else None)
    else None
  }

  /** Behind digits that have been read, the parser goes on with their value. */
  lemma {:induction false} ParseDigits(v: nat, w: nat, rest: seq<Byte>)
    requires v <= ULONG_MAX && v < Pow8(w)
    ensures ParseOctal(Octal(v, w) + rest, 0, 0) == ParseOctal(Octal(v, w) + rest, w, v)
    decreases w
  {
    if w > 0 {
      var digit := ZERO + v % 8;
      assert Octal(v, w) + rest == Octal(v / 8, w - 1) + ([digit] + rest);
      ParseDigits(v / 8, w - 1, [digit] + rest);
    }
  }

  /** The printer and the parser are inverse. */
  lemma OctalRoundTrip(v: nat, w: nat)
    requires v <= ULONG_MAX && v < Pow8(w) && w > 0
    ensures ParseOctal(Octal(v, w) + [0], 0, 0) == Some(v)
  {
    ParseDigits(v, w, [0]);
  }

  predicate IsDigit(b: Byte) {
    48 <= b <= 55
  }

  /** The number that octal digits denote. */
  function Denoted(digits: seq<Byte>): int {
    if digits == [] then 0 else 8 * Denoted(digits[..|digits| - 1]) + digits[|digits| - 1] - 48
  }

  /** The field begins with the k octal digits of v and a blank or null byte. */
  ghost predicate Field(s: seq<Byte>, k: nat, v: int) {
    && 1 <= k < |s| && (forall i :: 0 <= i < k ==> IsDigit(s[i])) && (s[k] == 32 || s[k] == 0)
    && v == Denoted(s[..k])
  }

  lemma {:induction false} DenotedGrows(s: seq<Byte>, i: nat, k: nat)
    requires i <= k <= |s| && forall j :: 0 <= j < k ==> IsDigit(s[j])
    ensures 0 <= Denoted(s[..i]) <= Denoted(s[..k])
    decreases k
  {
    if k > 0 {
      assert s[..k][..k - 1] == s[..k - 1];
      DenotedGrows(s, if i < k then i else k - 1, k - 1);
    }
  }

  lemma DenotedNext(s: seq<Byte>, i: nat)
    requires i < |s|
    ensures Denoted(s[..i + 1]) == 8 * Denoted(s[..i]) + s[i] - 48
  {
    assert s[..i + 1][..i] == s[..i];
  }

  lemma {:induction false} ParseFrom(s: seq<Byte>, i: nat, v: nat)
    requires i <= |s| && (forall j :: 0 <= j < i ==> IsDigit(s[j])) && 0 <= Denoted(s[..i]) <= ULONG_MAX
    ensures ParseOctal(s, i, Denoted(s[..i])) == Some(v) <==> v <= ULONG_MAX && exists k: nat :: i <= k && Field(s, k, v)
    decreases |s| - i
  {
    if i < |s| && IsDigit(s[i]) {
      DenotedNext(s, i);
      if Denoted(s[..i]) <= ULONG_MAX / 8 {
        ParseFrom(s, i + 1, v);
      }
      forall k: nat | i <= k && Field(s, k, v)
        ensures i < k && Denoted(s[..i + 1]) <= v
      {
        DenotedGrows(s, i + 1, k);
      }
    } else if i < |s| {
      assert forall k: nat :: Field(s, k, v) && i <= k ==> k == i;
      assert s[i] == 32 || s[i] == 0 ==> (i > 0 && v == Denoted(s[..i]) ==> Field(s, i, v));
    }
  }

  /** parse_octal_field() reads v exactly when the field begins with octal digits that denote v, ended
      by a blank or a null byte, and v fits 32 bits. */
  lemma ParseOctalIff(s: seq<Byte>, v: nat)
    ensures ParseOctal(s, 0, 0) == Some(v) <==> v <= ULONG_MAX && exists k: nat :: Field(s, k, v)
  {
    assert Denoted(s[..0]) == 0;
    ParseFrom(s, 0, v);
  }

  // ---- Headers --------------------------------------------------------------------------------------

  /** h with bytes stored at offset o. */
  function Put(h: seq<Byte>, o: nat, bytes: seq<Byte>): (r: seq<Byte>)
    requires o + |bytes| <= |h|
    ensures |r| == |h| && forall i :: 0 <= i < |h| ==> r[i] == if o <= i < o + |bytes| then bytes[i - o] else h[i]
  {
    h[..o] + bytes + h[o + |bytes|..]
  }

  predicate InChksum(i: int) {
    CHKSUM <= i < CHKSUM + 8
  }

  /** calculate_chksum() of the first n bytes */
  function Sum(h: seq<Byte>, n: nat): nat
    requires n <= |h|
  {
    if n == 0 then 0 else Sum(h, n - 1) + if InChksum(n - 1) then SPACE else h[n - 1]
  }

  /** The sum ignores the field it is stored in. */
  lemma {:induction false} SumIgnoresItself(h: seq<Byte>, h': seq<Byte>, n: nat)
    requires n <= |h| && n <= |h'| && forall i :: 0 <= i < n && !InChksum(i) ==> h[i] == h'[i]
    ensures Sum(h, n) == Sum(h', n)
    decreases n
  {
    if n > 0 {
      SumIgnoresItself(h, h', n - 1);
    }
  }

  lemma {:induction false} SumBound(h: seq<Byte>, n: nat)
    requires n <= |h|
    ensures Sum(h, n) <= 255 * n
    decreases n
  {
    if n > 0 {
      SumBound(h, n - 1);
    }
  }

  /** Any other byte counts for what it is. */
  lemma {:induction false} SumChanged(h: seq<Byte>, i: nat, b: Byte, n: nat)
    requires i < n <= |h| && !InChksum(i)
    ensures Sum(h[i := b], n) == Sum(h, n) - h[i] + b
    decreases n
  {
    if i == n - 1 {
      SumIgnoresItself(h[i := b], h, n - 1);
    } else {
      SumChanged(h, i, b, n - 1);
    }
  }

  /** The plain total of some bytes. */
  function Total(b: seq<Byte>): nat {
    if b == [] then 0 else b[0] + Total(b[1..])
  }

  lemma {:induction false} TotalLast(b: seq<Byte>, x: Byte)
    ensures Total(b + [x]) == Total(b) + x
    decreases |b|
  {
    if b == [] {
      assert b + [x] == [x];
    } else {
      TotalLast(b[1..], x);
      assert (b + [x])[1..] == b[1..] + [x];
    }
  }

  /** The header as it counts: bytes 148 to 155 are blanks. */
  function Blanked(h: seq<Byte>): (r: seq<Byte>)
    requires |h| == 512
    ensures |r| == 512 && forall i :: 0 <= i < 512 ==> r[i] == if 148 <= i < 156 then 32 else h[i]
  {
    h[..148] + [32, 32, 32, 32, 32, 32, 32, 32] + h[156..]
  }

  lemma {:induction false} SumIsTotalUpTo(h: seq<Byte>, n: nat)
    requires n <= |h| == 512
    ensures Sum(h, n) == Total(Blanked(h)[..n])
    decreases n
  {
    var b := Blanked(h);
    if n > 0 {
      SumIsTotalUpTo(h, n - 1);
      TotalLast(b[..n - 1], b[n - 1]);
      assert b[..n] == b[..n - 1] + [b[n - 1]];
    }
  }

  /** The checksum is the total of the 512 bytes, those of its own field counting as blanks. */
  lemma SumIsTotal(h: seq<Byte>)
    requires |h| == 512
    ensures Sum(h, 512) == Total(h[..148] + [32, 32, 32, 32, 32, 32, 32, 32] + h[156..])
  {
    SumIsTotalUpTo(h, 512);
    assert Blanked(h)[..512] == Blanked(h);
  }

  lemma {:induction false} SumOfZeros(n: nat)
    requires n <= 512
    ensures Sum(Zeros(512), n) == if n <= 148 then 0 else if n <= 156 then 32 * (n - 148) else 256
    decreases n
  {
    if n > 0 {
      SumOfZeros(n - 1);
    }
  }

  /** The checksum of an empty block is that of eight blanks. */
  lemma ChksumOfZeros()
    ensures Sum(Zeros(512), 512) == 256
  {
    SumOfZeros(512);
  }

  /** The conversion of the int argument to unsigned */
  function Unsigned(size: int): nat
    requires -INT_MAX - 1 <= size
  {
    if size < 0 then size + ULONG_MAX + 1 else size
  }

  function Mode(typ: Byte): nat {
    if typ == REGULAR then 420 else 493  // 0644 and 0755
  }

  const MTIME_VALUE := 1136102400

  function Zeros(n: nat): seq<Byte> {
    seq(n, _ => 0)
  }

  predicate Int(size: int) {
    -INT_MAX - 1 <= size <= INT_MAX
  }

  /** The header before its checksum is stored; name is at most 99 bytes. */
  function Numbers(name: seq<Byte>, typ: Byte, size: int): (h: seq<Byte>)
    requires |name| <= 99 && Int(size)
    ensures |h| == HEADER_SIZE
  {
    var h := Put(Zeros(HEADER_SIZE), NAME, name + [0]);
    var h := Put(h, MODE, Octal(Mode(typ), 7) + [0]);
    var h := Put(h, UID, NOBODY + [0]);
    var h := Put(h, GID, NOBODY + [0]);
    var h := Put(h, SIZE, Octal(Unsigned(size), 11) + [0]);
    Put(h, MTIME, Octal(MTIME_VALUE, 11) + [0])
  }

  function Body(name: seq<Byte>, typ: Byte, size: int): (h: seq<Byte>)
    requires |name| <= 99 && Int(size)
    ensures |h| == HEADER_SIZE
  {
    var h := Put(Numbers(name, typ, size), TYPEFLAG, [typ]);
    var h := Put(h, MAGIC_AT, MAGIC + [0]);
    var h := Put(h, VERSION, [ZERO, ZERO]);
    var h := Put(h, GNAME, ROOT + [0]);
    Put(h, UNAME, ROOT + [0])
  }

  /** ustar_make_header() */
  function Make(name: seq<Byte>, typ: Byte, size: int): Option<seq<Byte>>
    requires Int(size)
  {
    var stripped := Strip(name);
    if |stripped| > 99 then None
    else
      var body := Body(stripped, typ, size);
      Some(Put(body, CHKSUM, Octal(Sum(body, HEADER_SIZE), 7) + [0]))
  }

  datatype Error =
    | NotUstar | BadVersion | CorruptChksum | ChksumMismatch | NameTooLong | BadType | CorruptSize | FileTooLarge

  datatype Parsed = EndOfArchive | Failed(error: Error) | Entry(name: seq<Byte>, typ: Byte, size: int)

  /** A string up to its null terminator. */
  function CString(s: seq<Byte>): seq<Byte> {
    if s == [] || s[0] == 0 then [] else [s[0]] + CString(s[1..])
  }

  /** ustar_parse_header() */
  function Parse(h: seq<Byte>): Parsed
    requires |h| == HEADER_SIZE
  {
    var chksum := ParseOctal(h[CHKSUM..CHKSUM + 8], 0, 0);
    var size := ParseOctal(h[SIZE..SIZE + 12], 0, 0);
    var typ := h[TYPEFLAG];
    if h == Zeros(HEADER_SIZE) then EndOfArchive
    else if h[MAGIC_AT..MAGIC_AT + 6] != MAGIC + [0] then Failed(NotUstar)
    else if h[VERSION] != ZERO || h[VERSION + 1] != ZERO then Failed(BadVersion)
    else if chksum.None? then Failed(CorruptChksum)
    else if chksum.value != Sum(h, HEADER_SIZE) then Failed(ChksumMismatch)
    else if h[NAME + 99] != 0 || h[PREFIX] != 0 then Failed(NameTooLong)
    else if typ != REGULAR && typ != DIRECTORY then Failed(BadType)
    else if typ == REGULAR && size.None? then Failed(CorruptSize)
    else if typ == REGULAR && size.value > INT_MAX then Failed(FileTooLarge)
    else Entry(Strip(CString(h[NAME..NAME + 100])), typ, if typ == REGULAR then size.value else 0)
  }

  lemma {:induction false} CStringIs(name: seq<Byte>, rest: seq<Byte>)
    requires (forall i :: 0 <= i < |name| ==> name[i] != 0) && (rest != [] ==> rest[0] == 0)
    ensures CString(name + rest) == name
    decreases |name|
  {
    if name != [] {
      CStringIs(name[1..], rest);
      assert (name + rest)[1..] == name[1..] + rest;
    } else {
      assert name + rest == rest;
    }
  }

  /** Where the fields of a header are, through the stores that made it. */
  lemma BodyFields(name: seq<Byte>, typ: Byte, size: int)
    requires |name| <= 99 && Int(size)
    ensures var h := Body(name, typ, size);
            && h[NAME..NAME + 100] == name + Zeros(100 - |name|)
            && h[SIZE..SIZE + 12] == Octal(Unsigned(size), 11) + [0]
            && h[TYPEFLAG] == typ && h[MAGIC_AT..MAGIC_AT + 6] == MAGIC + [0]
            && h[VERSION] == h[VERSION + 1] == ZERO && h[PREFIX] == 0
  {
    hide Octal;
  }

  lemma Pow8Is()
    ensures Pow8(7) == 0x20_0000 && Pow8(11) == 0x2_0000_0000
  {
    assert Pow8(2) == 0x40 && Pow8(4) == 0x1000 && Pow8(6) == 0x4_0000 && Pow8(8) == 0x100_0000 && Pow8(10) == 0x4000_0000;
  }

  /** The fields of the finished header, and its checksum. */
  lemma MadeFields(name: seq<Byte>, typ: Byte, size: int)
    requires |name| <= 99 && Int(size)
    ensures var body := Body(name, typ, size);
            var h := Put(body, CHKSUM, Octal(Sum(body, HEADER_SIZE), 7) + [0]);
            && h[NAME..NAME + 100] == name + Zeros(100 - |name|)
            && ParseOctal(h[SIZE..SIZE + 12], 0, 0) == Some(Unsigned(size))
            && h[TYPEFLAG] == typ && h[MAGIC_AT..MAGIC_AT + 6] == MAGIC + [0]
            && h[VERSION] == h[VERSION + 1] == ZERO && h[PREFIX] == 0
            && ParseOctal(h[CHKSUM..CHKSUM + 8], 0, 0) == Some(Sum(h, HEADER_SIZE))
  {
    hide Body, Octal, Sum, ParseOctal, Pow8;
    var body := Body(name, typ, size);
    BodyFields(name, typ, size);
    Pow8Is();
    OctalRoundTrip(Unsigned(size), 11);
    ChksumStored(body);
    var h := Put(body, CHKSUM, Octal(Sum(body, HEADER_SIZE), 7) + [0]);
    assert h[SIZE..SIZE + 12] == body[SIZE..SIZE + 12];
    assert h[NAME..NAME + 100] == body[NAME..NAME + 100];
    assert h[MAGIC_AT..MAGIC_AT + 6] == body[MAGIC_AT..MAGIC_AT + 6];
  }

  /** The checksum that is stored is the checksum of the header it is stored in. */
  lemma ChksumStored(body: seq<Byte>)
    requires |body| == HEADER_SIZE
    ensures var h := Put(body, CHKSUM, Octal(Sum(body, HEADER_SIZE), 7) + [0]);
            ParseOctal(h[CHKSUM..CHKSUM + 8], 0, 0) == Some(Sum(h, HEADER_SIZE))
  {
    hide Octal, Sum, ParseOctal, Pow8;
    var sum := Sum(body, HEADER_SIZE);
    var h := Put(body, CHKSUM, Octal(sum, 7) + [0]);
    Pow8Is();
    SumBound(body, HEADER_SIZE);
    OctalRoundTrip(sum, 7);
    SumIgnoresItself(body, h, HEADER_SIZE);
    assert h[CHKSUM..CHKSUM + 8] == Octal(sum, 7) + [0];
  }

  ghost predicate IsName(name: seq<Byte>) {
    forall i :: 0 <= i < |name| ==> name[i] != 0
  }

  /** "0000644" and "0000755" */
  lemma ModeDigits()
    ensures Octal(420, 7) == [48, 48, 48, 48, 54, 52, 52] && Octal(493, 7) == [48, 48, 48, 48, 55, 53, 53]
  {
    assert Octal(420, 3) == [54, 52, 52] && Octal(493, 3) == [55, 53, 53] by {
      assert Octal(6, 1) == [54] && Octal(52, 2) == [54, 52];
      assert Octal(7, 1) == [55] && Octal(61, 2) == [55, 53];
    }
    LeadingZeros(420);
    LeadingZeros(493);
  }

  lemma LeadingZeros(v: nat)
    requires v < 512
    ensures Octal(v, 7) == [48, 48, 48, 48] + Octal(v, 3)
  {
    assert Pow8(3) == 512 by {
      assert Pow8(1) == 8;
    }
    ZeroInFront(v, 3);
    ZeroInFront(v, 4);
    ZeroInFront(v, 5);
    ZeroInFront(v, 6);
  }

  /** The other fields: mode 0644 for a file and 0755 for a directory, owner and group 0 and "root", the
      time of 2006-01-01, and zeros. */
  lemma MadeOthers(name: seq<Byte>, typ: Byte, size: int)
    requires |name| <= 99 && Int(size)
    ensures var h := Body(name, typ, size);
            && h[100..108] == [48, 48, 48, 48] + (if typ == 48 then [54, 52, 52] else [55, 53, 53]) + [0]
            && h[108..116] == h[116..124] == [48, 48, 48, 48, 48, 48, 48, 0]
            && ParseOctal(h[136..148], 0, 0) == Some(1136102400)
            && h[265..270] == h[297..302] == [114, 111, 111, 116, 0]
            && h[157..257] == Zeros(100) && h[270..297] == Zeros(27) && h[302..512] == Zeros(210)
  {
    ModeDigits();
    Pow8Is();
    OctalRoundTrip(1136102400, 11);
    hide Octal, Pow8, ParseOctal;
    OtherFields(name, typ, size);
  }

  lemma OtherFields(name: seq<Byte>, typ: Byte, size: int)
    requires |name| <= 99 && Int(size)
    ensures var h := Body(name, typ, size);
            && h[100..108] == Octal(Mode(typ), 7) + [0] && h[108..116] == h[116..124] == NOBODY + [0]
            && h[136..148] == Octal(MTIME_VALUE, 11) + [0] && h[265..270] == h[297..302] == ROOT + [0]
            && h[157..257] == Zeros(100) && h[270..297] == Zeros(27) && h[302..512] == Zeros(210)
  {
    hide Octal;
  }

  /** Whatever header is made, the parser reads back the stripped name, the type and the size
      (0 for a directory); only a negative size of a regular file is refused. */
  lemma RoundTrip(name: seq<Byte>, typ: Byte, size: int)
    requires IsName(name) && (typ == REGULAR || typ == DIRECTORY) && Int(size)
    ensures Make(name, typ, size).None? <==> |Strip(name)| > 99
    ensures Make(name, typ, size).Some? ==>
              Parse(Make(name, typ, size).value) ==
              if typ == DIRECTORY then Entry(Strip(name), typ, 0)
              else if size >= 0 then Entry(Strip(name), typ, size)
              else Failed(FileTooLarge)
  {
    var n := Strip(name);
    if |n| <= 99 {
      MadeFields(n, typ, size);
      StrippedIsName(name);
      CStringIs(n, Zeros(100 - |n|));
      StripTwice(name);
      hide Body, Octal, Sum, ParseOctal, Strip, CString;
      var h := Make(name, typ, size).value;
      assert h[NAME..NAME + 100][99] == 0;
      assert h[VERSION] != Zeros(HEADER_SIZE)[VERSION];
    }
  }

  lemma StrippedIsName(name: seq<Byte>)
    requires IsName(name)
    ensures IsName(Strip(name))
  {
    StrippedIsSafe(name);
  }

  ghost predicate ChksumMatches(h: seq<Byte>)
    requires |h| == 512
  {
    exists k: nat :: Field(h[148..156], k, Total(Blanked(h)))
  }

  ghost predicate SizeFits(s: seq<Byte>) {
    exists k: nat, v: int :: Field(s, k, v) && v <= 0x7FFF_FFFF
  }

  /** What the format asks of a header: "ustar" and version "00", a checksum that is the total, a name
      and prefix that end, a known type, and for a file a size that fits an int. */
  ghost predicate WellFormed(h: seq<Byte>)
    requires |h| == 512
  {
    && h[257..263] == [117, 115, 116, 97, 114, 0] && h[263] == 48 && h[264] == 48
    && ChksumMatches(h)
    && h[99] == 0 && h[345] == 0 && (h[156] == 48 || h[156] == 53)
    && (h[156] == 48 ==> SizeFits(h[124..136]))
  }

  lemma {:induction false} TotalBound(b: seq<Byte>)
    ensures Total(b) <= 255 * |b|
    decreases |b|
  {
    if b != [] {
      TotalBound(b[1..]);
    }
  }

  lemma ChksumMatchesIff(h: seq<Byte>)
    requires |h| == 512
    ensures var c := ParseOctal(h[148..156], 0, 0);
            c.Some? && c.value == Sum(h, 512) <==> ChksumMatches(h)
  {
    SumIsTotal(h);
    TotalBound(Blanked(h));
    ParseOctalIff(h[148..156], Total(Blanked(h)));
  }

  lemma SizeFitsIff(s: seq<Byte>)
    ensures var c := ParseOctal(s, 0, 0);
            c.Some? && c.value <= INT_MAX <==> SizeFits(s)
  {
    var c := ParseOctal(s, 0, 0);
    if c.Some? {
      ParseOctalIff(s, c.value);
    }
    if k: nat, v: int :| Field(s, k, v) && v <= INT_MAX {
      DenotedGrows(s, 0, k);
      assert s[..0] == [];
      ParseOctalIff(s, v);
    }
  }

  /** A header is accepted exactly when it is well formed; a block is the end of the archive exactly
      when it is all zeros. */
  lemma ParseAcceptsIff(h: seq<Byte>)
    requires |h| == 512
    ensures Parse(h).Entry? <==> WellFormed(h)
    ensures Parse(h).EndOfArchive? <==> forall i :: 0 <= i < 512 ==> h[i] == 0
  {
    hide Sum, ParseOctal, Strip, CString, ChksumMatches, SizeFits;
    ChksumMatchesIff(h);
    SizeFitsIff(h[124..136]);
    assert (forall i :: 0 <= i < 512 ==> h[i] == 0) <==> h == Zeros(512);
    assert h == Zeros(512) ==> h[263] == 0;
    assert MAGIC + [0] == [117, 115, 116, 97, 114, 0];
  }

  /** The field holds no number of at most 32 bits. */
  ghost predicate NoNumber(s: seq<Byte>) {
    forall k: nat, v: int :: Field(s, k, v) ==> v > 0xFFFF_FFFF
  }

  /** What each error means; the checks are made in the order of the rank. */
  ghost predicate Flaw(h: seq<Byte>, e: Error)
    requires |h| == 512
  {
    match e
    case NotUstar => h[257..263] != [117, 115, 116, 97, 114, 0]
    case BadVersion => h[263] != 48 || h[264] != 48
    case CorruptChksum => NoNumber(h[148..156])
    case ChksumMismatch => !ChksumMatches(h)
    case NameTooLong => h[99] != 0 || h[345] != 0
    case BadType => h[156] != 48 && h[156] != 53
    case CorruptSize => h[156] == 48 && NoNumber(h[124..136])
    case FileTooLarge => h[156] == 48 && !SizeFits(h[124..136])
  }

  function Rank(e: Error): nat {
    match e
    case NotUstar => 0
    case BadVersion => 1
    case CorruptChksum => 2
    case ChksumMismatch => 3
    case NameTooLong => 4
    case BadType => 5
    case CorruptSize => 6
    case FileTooLarge => 7
  }

  lemma NoNumberIff(s: seq<Byte>)
    ensures ParseOctal(s, 0, 0).None? <==> NoNumber(s)
  {
    var c := ParseOctal(s, 0, 0);
    if c.Some? {
      ParseOctalIff(s, c.value);
    }
    if k: nat, v: int :| Field(s, k, v) && v <= 0xFFFF_FFFF {
      DenotedGrows(s, 0, k);
      assert s[..0] == [];
      ParseOctalIff(s, v);
    }
  }

  /** A header is refused exactly with the first of its flaws. */
  lemma FirstFlaw(h: seq<Byte>, e: Error)
    requires |h| == 512
    ensures Parse(h) == Failed(e) <==>
            h != Zeros(512) && Flaw(h, e) && forall f: Error :: Rank(f) < Rank(e) ==> !Flaw(h, f)
  {
    hide Sum, ParseOctal, Strip, CString, ChksumMatches, SizeFits, NoNumber;
    ChksumMatchesIff(h);
    SizeFitsIff(h[124..136]);
    NoNumberIff(h[148..156]);
    NoNumberIff(h[124..136]);
    assert MAGIC + [0] == [117, 115, 116, 97, 114, 0];
    var clean := forall f: Error :: Rank(f) < Rank(e) ==> !Flaw(h, f);
    assert clean <==> && (Rank(e) > 0 ==> !Flaw(h, NotUstar)) && (Rank(e) > 1 ==> !Flaw(h, BadVersion))
                      && (Rank(e) > 2 ==> !Flaw(h, CorruptChksum)) && (Rank(e) > 3 ==> !Flaw(h, ChksumMismatch))
                      && (Rank(e) > 4 ==> !Flaw(h, NameTooLong)) && (Rank(e) > 5 ==> !Flaw(h, BadType))
                      && (Rank(e) > 6 ==> !Flaw(h, CorruptSize));
  }

  lemma {:induction false} CStringEnds(s: seq<Byte>)
    ensures |CString(s)| <= |s| && CString(s) == s[..|CString(s)|] && IsName(CString(s))
    ensures |CString(s)| < |s| ==> s[|CString(s)|] == 0
    decreases |s|
  {
    if s != [] && s[0] != 0 {
      CStringEnds(s[1..]);
    }
  }

  /** The entry read from any accepted header: the bytes of the name up to the first null byte, stripped;
      the type; and the number in the size field, or 0 for a directory. */
  lemma EntryIs(h: seq<Byte>)
    requires |h| == 512 && Parse(h).Entry?
    ensures var r := Parse(h);
            && (exists m: nat :: m <= 99 && h[m] == 0 && IsName(h[..m]) && r.name == Strip(h[..m]))
            && r.typ == h[156]
            && (if r.typ == 53 then r.size == 0 else exists k: nat :: Field(h[124..136], k, r.size))
  {
    var r := Parse(h);
    var name := CString(h[..100]);
    CStringEnds(h[..100]);
    if h[156] == 48 {
      ParseOctalIff(h[124..136], r.size);
    }
    hide Sum, ParseOctal, Strip, CString, Field;
    assert h[..100][99] == 0;
    assert h[NAME..NAME + 100] == h[..100];
    var m := |name|;
    assert m < 100 by {
      assert forall i :: 0 <= i < m ==> name[i] == h[i] && name[i] != 0;
    }
    assert h[..100][..m] == h[..m] && h[m] == 0;
  }

  /** An accepted header with any one byte outside the checksum field changed is not accepted. */
  lemma SingleByteDetected(h: seq<Byte>, i: nat, b: Byte)
    requires |h| == HEADER_SIZE && Parse(h).Entry? && i < HEADER_SIZE && !InChksum(i) && b != h[i]
    ensures Parse(h[i := b]).Failed?
  {
    var h' := h[i := b];
    SumChanged(h, i, b, HEADER_SIZE);
    assert h'[CHKSUM..CHKSUM + 8] == h[CHKSUM..CHKSUM + 8];
    hide Sum, ParseOctal, Strip, CString;
    assert h[VERSION] == ZERO && h[VERSION + 1] == ZERO;
    assert h'[VERSION] != 0 || h'[VERSION + 1] != 0;
    assert Zeros(HEADER_SIZE)[VERSION] == 0 == Zeros(HEADER_SIZE)[VERSION + 1];
  }

  // ---- The code ---------------------------------------------------------------------------------------

  /** v after k divisions by the base */
  function Shifted(v: nat, k: nat): nat {
    if k == 0 then v else Shifted(v / 8, k - 1)
  }

  lemma {:induction false} ShiftedMore(v: nat, k: nat)
    ensures Shifted(v, k + 1) == Shifted(v, k) / 8
    decreases k
  {
    if k > 0 {
      ShiftedMore(v / 8, k - 1);
    }
  }

  lemma {:induction false} ShiftedZeroIff(v: nat, k: nat)
    ensures Shifted(v, k) == 0 <==> v < Pow8(k)
    decreases k
  {
    if k > 0 {
      ShiftedZeroIff(v / 8, k - 1);
    }
  }

  /** One more digit comes in front. */
  lemma {:induction false} OctalFront(v: nat, k: nat)
    ensures Octal(v, k + 1) == [ZERO + Shifted(v, k) % 8] + Octal(v, k)
    decreases k
  {
    if k > 0 {
      OctalFront(v / 8, k - 1);
      assert Octal(v, k + 1) == Octal(v / 8, k) + [ZERO + v % 8];
    }
  }

  lemma {:induction false} Pow8Grows(a: nat, b: nat)
    requires a <= b
    ensures Pow8(a) <= Pow8(b)
    decreases b
  {
    if a < b {
      Pow8Grows(a, b - 1);
    }
  }

  function Reversed(s: seq<Byte>): (r: seq<Byte>)
    ensures |r| == |s|
  {
    if s == [] then [] else [s[|s| - 1]] + Reversed(s[..|s| - 1])
  }

  /** format_integer() as for a conversion %0<width>o: the digits, and zeros in front to fill the
      width. */
  method FormatOctal(value: nat, width: nat) returns (out: seq<Byte>)
    ensures value < Pow8(|out|) && out == Octal(value, |out|)
    ensures width <= |out| && (0 < width && value < Pow8(width) ==> |out| == width)
  {
    hide Octal, Shifted, Pow8;
    var buf: seq<Byte>, v := [], value;
    assert Shifted(value, 0) == value && Octal(value, 0) == [] by {
      FormatStarts(value);
    }
    while v > 0
      invariant v == Shifted(value, |buf|) && Reversed(buf) == Octal(value, |buf|)
      invariant |buf| > 0 ==> Shifted(value, |buf| - 1) > 0
      decreases v
    {
      OctalFront(value, |buf|);
      ShiftedMore(value, |buf|);
      assert (buf + [ZERO + v % 8])[..|buf|] == buf;
      buf, v := buf + [ZERO + v % 8], v / 8;
    }
    ShiftedZeroIff(value, |buf|);
    assert |buf| > 0 ==> value >= Pow8(|buf| - 1) by {
      if |buf| > 0 {
        ShiftedZeroIff(value, |buf| - 1);
      }
    }
    if |buf| > width {
      Pow8Grows(width, |buf| - 1);
    }
    while |buf| < 1
      invariant value < Pow8(|buf|) && Reversed(buf) == Octal(value, |buf|)
      invariant value < Pow8(width) && width > 0 ==> |buf| <= width
      decreases 1 - |buf|
    {
      ZeroInFront(value, |buf|);
      assert (buf + [ZERO])[..|buf|] == buf;
      buf := buf + [ZERO];
    }
    var pad := if width > |buf| then width - |buf| else 0;
    out := Reversed(buf);
    while pad > 0
      invariant value < Pow8(|out|) && out == Octal(value, |out|)
      invariant pad >= 0 && |out| + pad == if width > |buf| then width else |buf|
    {
      ZeroInFront(value, |out|);
      out, pad := [ZERO] + out, pad - 1;
    }
  }

  lemma FormatStarts(value: nat)
    ensures Shifted(value, 0) == value && Octal(value, 0) == []
  {
  }

  lemma ZeroInFront(v: nat, k: nat)
    requires v < Pow8(k)
    ensures v < Pow8(k + 1) && Octal(v, k + 1) == [ZERO] + Octal(v, k)
  {
    OctalFront(v, k);
    ShiftedZeroIff(v, k);
    Pow8Grows(k, k + 1);
  }

  /** calculate_chksum() */
  method CalculateChksum(header: array<Byte>) returns (sum: nat)
    requires header.Length == HEADER_SIZE
    ensures sum == Sum(header[..], HEADER_SIZE)
    ensures sum == Total(header[..148] + [32, 32, 32, 32, 32, 32, 32, 32] + header[156..])
  {
    sum := 0;
    var i := 0;
    while i < HEADER_SIZE
      invariant i <= HEADER_SIZE && sum == Sum(header[..], i)
    {
      sum := sum + if CHKSUM <= i < CHKSUM + 8 then SPACE else header[i];
      i := i + 1;
    }
    SumIsTotal(header[..]);
    assert header[..][..148] == header[..148] && header[..][156..] == header[156..];
  }

  /** parse_octal_field() */
  method ParseOctalField(s: seq<Byte>) returns (r: Option<nat>)
    ensures r == ParseOctal(s, 0, 0)
  {
    var value: nat, i := 0, 0;
    while i < |s|
      invariant i <= |s| && ParseOctal(s, 0, 0) == ParseOctal(s, i, value)
    {
      var c := s[i];
      if ZERO <= c < ZERO + 8 {
        if value > ULONG_MAX / 8 {
          return None;
        }
        value := c - ZERO + value * 8;
      } else if c == SPACE || c == 0 {
        return if i > 0 then Some(value) else None;
      } else {
        return None;
      }
      i := i + 1;
    }
    return None;
  }

  /** strip_antisocial_prefixes() */
  method StripPrefixes(name: seq<Byte>) returns (r: seq<Byte>)
    ensures r == Strip(name)
  {
    r := name;
    while r != [] && Antisocial(r)
      invariant Strip(r) == Strip(name)
      decreases |r|
    {
      r := AfterSlash(r);
    }
    if r == [] || r == [DOT, DOT] {
      r := [DOT];
    }
  }

  /** strlcpy() and snprintf() into a field: as much as fits, and a null terminator. */
  method PutString(header: array<Byte>, o: nat, size: nat, s: seq<Byte>)
    requires size > 0 && o + size <= header.Length
    modifies header
    ensures header[..] == Put(old(header[..]), o, (if |s| < size then s else s[..size - 1]) + [0])
  {
    var n := if |s| < size then |s| else size - 1;
    forall i | 0 <= i < n {
      header[o + i] := s[i];
    }
    header[o + n] := 0;
  }

  /** ustar_make_header() */
  method MakeHeader(name: seq<Byte>, typ: Byte, size: int, header: array<Byte>) returns (ok: bool)
    requires header.Length == HEADER_SIZE && (typ == REGULAR || typ == DIRECTORY) && Int(size)
    modifies header
    ensures ok == Make(name, typ, size).Some?
    ensures header[..] == if ok then Make(name, typ, size).value else old(header[..])
  {
    var stripped := StripPrefixes(name);
    if |stripped| > 99 {
      return false;
    }
    FillNumbers(stripped, typ, size, header);
    FillNames(stripped, typ, size, header);
    hide Body, Strip, Octal, Sum, Put, Pow8;
    var sum := CalculateChksum(header);
    var digits := FormatOctal(sum, 7);
    SumBound(header[..], HEADER_SIZE);
    Pow8Is();
    PutString(header, CHKSUM, 8, digits);
    return true;
  }

  /** The fields behind the checksum */
  method FillNames(name: seq<Byte>, typ: Byte, size: int, header: array<Byte>)
    requires header.Length == HEADER_SIZE && |name| <= 99 && Int(size) && header[..] == Numbers(name, typ, size)
    modifies header
    ensures header[..] == Body(name, typ, size)
  {
    hide Numbers;
    header[TYPEFLAG] := typ;
    assert header[..] == Put(Numbers(name, typ, size), TYPEFLAG, [typ]);
    PutString(header, MAGIC_AT, 6, MAGIC);
    ghost var h := header[..];
    header[VERSION], header[VERSION + 1] := ZERO, ZERO;
    assert header[..] == Put(h, VERSION, [ZERO, ZERO]);
    PutString(header, GNAME, 32, ROOT);
    PutString(header, UNAME, 32, ROOT);
  }

  /** The fields up to the modification time */
  method FillNumbers(name: seq<Byte>, typ: Byte, size: int, header: array<Byte>)
    requires header.Length == HEADER_SIZE && |name| <= 99 && Int(size)
    modifies header
    ensures header[..] == Numbers(name, typ, size)
  {
    hide Octal;
    Pow8Is();
    forall i | 0 <= i < HEADER_SIZE {
      header[i] := 0;
    }
    assert header[..] == Zeros(HEADER_SIZE);
    PutString(header, NAME, 100, name);
    var digits := FormatOctal(if typ == REGULAR then 420 else 493, 7);
    PutString(header, MODE, 8, digits);
    PutString(header, UID, 8, NOBODY);
    PutString(header, GID, 8, NOBODY);
    digits := FormatOctal(Unsigned(size), 11);
    PutString(header, SIZE, 12, digits);
    digits := FormatOctal(MTIME_VALUE, 11);
    PutString(header, MTIME, 12, digits);
  }

  /** is_all_zeros() */
  method IsAllZeros(block: array<Byte>) returns (b: bool)
    ensures b <==> block[..] == Zeros(block.Length)
  {
    var i := 0;
    while i < block.Length
      invariant i <= block.Length && forall j :: 0 <= j < i ==> block[j] == 0
    {
      if block[i] != 0 {
        assert block[..][i] != Zeros(block.Length)[i];
        return false;
      }
      i := i + 1;
    }
    return true;
  }

  /** ustar_parse_header() */
  method ParseHeader(header: array<Byte>) returns (r: Parsed)
    requires header.Length == HEADER_SIZE
    ensures r == Parse(header[..])
  {
    hide Strip, CString, ParseOctal, Sum;
    var zeros := IsAllZeros(header);
    if zeros {
      return EndOfArchive;
    }
    var h := header[..];
    if h[MAGIC_AT..MAGIC_AT + 6] != MAGIC + [0] {
      return Failed(NotUstar);
    } else if h[VERSION] != ZERO || h[VERSION + 1] != ZERO {
      return Failed(BadVersion);
    }
    var chksum := ParseOctalField(h[CHKSUM..CHKSUM + 8]);
    if chksum.None? {
      return Failed(CorruptChksum);
    }
    var sum := CalculateChksum(header);
    if chksum.value != sum {
      return Failed(ChksumMismatch);
    } else if h[NAME + 99] != 0 || h[PREFIX] != 0 {
      return Failed(NameTooLong);
    } else if h[TYPEFLAG] != REGULAR && h[TYPEFLAG] != DIRECTORY {
      return Failed(BadType);
    }
    var size := Some(0);
    if h[TYPEFLAG] == REGULAR {
      size := ParseOctalField(h[SIZE..SIZE + 12]);
      if size.None? {
        return Failed(CorruptSize);
      } else if size.value > INT_MAX {
        return Failed(FileTooLarge);
      }
    }
    var name := StripPrefixes(CString(h[NAME..NAME + 100]));
    return Entry(name, h[TYPEFLAG], size.value);
  }
}
