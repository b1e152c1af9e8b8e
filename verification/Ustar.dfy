/**
 Archive headers in the ustar format (lib/ustar.c) with the octal numbers that
 lib/stdio.c prints in them.  A header is 512 bytes; its fields are those of the
 "ustar Interchange Format" in the description of the pax utility (SUSv3).
 */
module Ustar {
  import opened Sequences

  const HEADER_SIZE: nat := 512
  const ULONG_MAX: nat := 0xFFFF_FFFF
  const INT_MIN: int := -0x8000_0000
  const INT_MAX: nat := 0x7FFF_FFFF

  const SLASH: Byte := 47
  const DOT: Byte := 46
  const SPACE: Byte := 32
  const ZERO: Byte := 48

  datatype Kind = Regular | Directory

  function TypeFlag(k: Kind): Byte { if k == Regular then 48 else 53 }

  // ----- Octal numbers

  function Pow8(n: nat): (p: nat)
    ensures p > 0
  {
    if n == 0 then 1 else 8 * Pow8(n - 1)
  }

  predicate OctalDigit(c: Byte) { ZERO <= c <= ZERO + 7 }

  /** The number that a sequence of octal digits stands for. */
  function Value(s: seq<Byte>): int {
    if s == [] then 0 else 8 * Value(s[..|s| - 1]) + (s[|s| - 1] - ZERO)
  }

  function LastDigit(v: nat): (c: Byte)
    ensures OctalDigit(c) && c - ZERO == v % 8
  {
    ZERO + v % 8
  }

  /** The octal digits of `v`, without leading zeros. */
  function Digits(v: nat): (s: seq<Byte>)
    ensures forall k :: 0 <= k < |s| ==> OctalDigit(s[k])
    ensures Value(s) == v
  {
    if v == 0 then [] else
      var s := Digits(v / 8) + [LastDigit(v)];
      assert s[..|s| - 1] == Digits(v / 8);
      s
  }

  function Fill(n: nat, c: Byte): (z: seq<Byte>)
    ensures |z| == n && forall k :: 0 <= k < n ==> z[k] == c
  {
    seq(n, _ => c)
  }

  /** A number with leading zeros. */
  function Octal(v: nat, width: nat): seq<Byte> {
    var d := Digits(v);
    if |d| < width then Fill(width - |d|, ZERO) + d else d
  }

  lemma {:induction false} LeadingZeros(n: nat, d: seq<Byte>)
    ensures Value(Fill(n, ZERO) + d) == Value(d)
    decreases n + |d|
  {
    var s := Fill(n, ZERO) + d;
    if d != [] {
      assert s[..|s| - 1] == Fill(n, ZERO) + d[..|d| - 1];
      LeadingZeros(n, d[..|d| - 1]);
    } else if n > 0 {
      assert s[..|s| - 1] == Fill(n - 1, ZERO) + [];
      LeadingZeros(n - 1, []);
    }
  }

  lemma {:induction false} DigitCount(v: nat, n: nat)
    requires v < Pow8(n)
    ensures |Digits(v)| <= n
    decreases n
  {
    if n > 0 && v > 0 { DigitCount(v / 8, n - 1); }
  }

  /** A number that is small enough fills its field exactly, and the field stands for it. */
  lemma OctalFits(v: nat, width: nat)
    requires v < Pow8(width)
    ensures |Octal(v, width)| == width && Value(Octal(v, width)) == v
    ensures forall k :: 0 <= k < width ==> OctalDigit(Octal(v, width)[k])
  {
    DigitCount(v, width);
    LeadingZeros(width - |Digits(v)|, Digits(v));
  }

  /** `format_integer` for the conversion %0No: digits from the last to the first, then the padding. */
  method FormatOctal(v: nat, width: nat) returns (s: seq<Byte>)
    requires width > 0
    ensures s == Octal(v, width)
  {
    hide Digits;
    var buf: seq<Byte> := [];
    var value := v;
    while value > 0
      invariant Digits(value) + Reversed(buf) == Digits(v)
      decreases value
    {
      NextDigit(value, buf);
      buf := buf + [LastDigit(value)];
      value := value / 8;
    }
    NoDigits(buf);
    if |buf| < 1 {
      // A value of zero is rendered as "0".
      buf := buf + [ZERO];
      assert Fill(width - 1, ZERO) + Reversed(buf) == Fill(width, ZERO) + [];
    }
    var pad := if width > |buf| then width - |buf| else 0;
    s := Fill(pad, ZERO) + Reversed(buf);
  }

  lemma NextDigit(value: nat, buf: seq<Byte>)
    requires value > 0
    ensures Digits(value / 8) + Reversed(buf + [LastDigit(value)]) == Digits(value) + Reversed(buf)
  {
    hide *;
    ReversedLast(buf, LastDigit(value));
    DigitsStep(value);
    Associate(Digits(value / 8), [LastDigit(value)], Reversed(buf));
  }

  lemma DigitsStep(v: nat)
    requires v > 0
    ensures Digits(v) == Digits(v / 8) + [LastDigit(v)]
  {
  }

  lemma Associate(a: seq<Byte>, b: seq<Byte>, c: seq<Byte>)
    ensures a + (b + c) == (a + b) + c
  {
  }

  lemma ReversedLast(buf: seq<Byte>, c: Byte)
    ensures Reversed(buf + [c]) == [c] + Reversed(buf)
  {
    assert (buf + [c])[..|buf|] == buf;
  }

  lemma NoDigits(buf: seq<Byte>)
    ensures Digits(0) + Reversed(buf) == Reversed(buf)
  {
    assert [] + Reversed(buf) == Reversed(buf);
  }

  function Reversed(s: seq<Byte>): (r: seq<Byte>)
    ensures |r| == |s|
  {
    if s == [] then [] else [s[|s| - 1]] + Reversed(s[..|s| - 1])
  }

  /** How many octal digits come first. */
  function Span(s: seq<Byte>): (n: nat)
    ensures n <= |s| && (forall k :: 0 <= k < n ==> OctalDigit(s[k])) && (n == |s| || !OctalDigit(s[n]))
  {
    if s == [] || !OctalDigit(s[0]) then 0 else 1 + Span(s[1..])
  }

  /** The number in an octal field: digits that end with a space or a NUL, and not too large a number. */
  function FieldValue(s: seq<Byte>): Option<nat> {
    var n := Span(s);
    if 0 < n < |s| && (s[n] == SPACE || s[n] == 0) && 0 <= Value(s[..n]) <= ULONG_MAX then Some(Value(s[..n])) else None
  }

  /** `parse_octal_field`. */
  method ParseOctalField(s: seq<Byte>) returns (value: Option<nat>)
    ensures value == FieldValue(s)
  {
    var v: nat := 0;
    var ofs := 0;
    ghost var n := Span(s);
    while ofs < |s|
      invariant 0 <= ofs <= n && v == Value(s[..ofs]) && v <= ULONG_MAX
    {
      var c := s[ofs];
      assert s[..ofs + 1][..ofs] == s[..ofs];
      if ZERO <= c <= ZERO + 7 {
        if v > ULONG_MAX / 8 {
          PrefixValue(s[..n], ofs + 1);
          assert s[..n][..ofs + 1] == s[..ofs + 1];
          return None;
        }
        v := c - ZERO + v * 8;
      } else if c == SPACE || c == 0 {
        return if ofs > 0 then Some(v) else None;
      } else {
        return None;
      }
      ofs := ofs + 1;
    }
    return None;
  }

  /** More digits make no smaller number. */
  lemma {:induction false} PrefixValue(s: seq<Byte>, n: nat)
    requires n <= |s| && forall k :: 0 <= k < |s| ==> OctalDigit(s[k])
    ensures 0 <= Value(s[..n]) <= Value(s)
    decreases |s|
  {
    if n < |s| {
      var front := s[..|s| - 1];
      PrefixValue(front, n);
      assert front[..n] == s[..n];
    } else {
      assert s[..n] == s;
      if s != [] {
        PrefixValue(s[..|s| - 1], |s| - 1);
        assert s[..|s| - 1][..|s| - 1] == s[..|s| - 1];
      }
    }
  }

  /** Printing a number into a field and parsing the field gives it back. */
  lemma OctalRoundTrip(v: nat, width: nat)
    requires v < Pow8(width) && v <= ULONG_MAX && width > 0
    ensures FieldValue(Octal(v, width) + [0]) == Some(v)
  {
    OctalFits(v, width);
    var s := Octal(v, width) + [0];
    assert s[width] == 0 && forall k :: 0 <= k < width ==> s[k] == Octal(v, width)[k];
    assert forall k :: 0 <= k < width ==> OctalDigit(s[k]);
    assert Span(s) == width;
    assert s[..width] == Octal(v, width);
  }

  // ----- File names

  /** The name begins with "/", "./" or "../". */
  predicate Antisocial(name: seq<Byte>) {
    || (|name| >= 1 && name[0] == SLASH)
    || (|name| >= 2 && name[..2] == [DOT, SLASH])
    || (|name| >= 3 && name[..3] == [DOT, DOT, SLASH])
  }

  function AfterSlash(name: seq<Byte>): (r: seq<Byte>)
    requires SLASH in name
    ensures |r| < |name|
  {
    if name[0] == SLASH then name[1..] else AfterSlash(name[1..])
  }

  lemma HasSlash(name: seq<Byte>)
    requires Antisocial(name)
    ensures SLASH in name
  {
    if name[0] != SLASH {
      assert name[1] == SLASH || name[2] == SLASH by {
        if |name| >= 2 && name[..2] == [DOT, SLASH] { assert name[..2][1] == SLASH; } else { assert name[..3][2] == SLASH; }
      }
    }
  }

  function Social(name: seq<Byte>): seq<Byte>
    decreases |name|
  {
    if Antisocial(name) then (HasSlash(name); Social(AfterSlash(name))) else name
  }

  /** The name without the prefixes; the empty name and ".." become ".". */
  function Strip(name: seq<Byte>): seq<Byte> {
    var s := Social(name);
    if s == [] || s == [DOT, DOT] then [DOT] else s
  }

  /** Stripping leaves no such prefix, and stripping again changes nothing. */
  lemma {:induction false} StripIsClean(name: seq<Byte>)
    ensures !Antisocial(Strip(name)) && Strip(name) != [] && Strip(name) != [DOT, DOT]
    ensures Strip(Strip(name)) == Strip(name)
    ensures 0 !in name ==> 0 !in Strip(name)
    decreases |name|
  {
    if Antisocial(name) {
      HasSlash(name);
      AfterSlashPart(name);
      StripIsClean(AfterSlash(name));
    }
  }

  lemma {:induction false} AfterSlashPart(name: seq<Byte>)
    requires SLASH in name
    ensures forall c :: c in AfterSlash(name) ==> c in name
  {
    if name[0] != SLASH { AfterSlashPart(name[1..]); }
  }

  /** Nothing but such prefixes is dropped: a name without one stays whole, the slashes within it included. */
  lemma StripKeeps(name: seq<Byte>)
    ensures Strip(name) == name <==> !Antisocial(name) && name != [] && name != [DOT, DOT]
  {
    StripIsClean(name);
  }

  /** Each prefix is dropped by itself. */
  lemma StripDrops(prefix: seq<Byte>, name: seq<Byte>)
    requires prefix in {[SLASH], [DOT, SLASH], [DOT, DOT, SLASH]}
    ensures Strip(prefix + name) == Strip(name)
  {
    var s := prefix + name;
    var n := |prefix|;
    assert s[..n] == prefix && s[n..] == name;
    assert Antisocial(s);
    FirstSlash(s, n - 1);
  }

  lemma {:induction false} FirstSlash(s: seq<Byte>, n: nat)
    requires n < |s| && s[n] == SLASH && forall k :: 0 <= k < n ==> s[k] != SLASH
    ensures SLASH in s && AfterSlash(s) == s[n + 1..]
  {
    if n > 0 {
      FirstSlash(s[1..], n - 1);
      assert s[1..][n..] == s[n + 1..];
    }
  }

  /** `strip_antisocial_prefixes`. */
  method StripPrefixes(name: seq<Byte>) returns (r: seq<Byte>)
    ensures r == Strip(name)
  {
    var s := name;
    while Antisocial(s)
      invariant Social(s) == Social(name)
      decreases |s|
    {
      HasSlash(s);
      s := AfterSlash(s);
    }
    r := if s == [] || s == [DOT, DOT] then [DOT] else s;
  }

  // ----- The header

  function Sum(s: seq<Byte>): nat {
    if s == [] then 0 else Sum(s[..|s| - 1]) + s[|s| - 1]
  }

  /** The sum of the octets, with the checksum field taken as spaces. */
  function Checksum(h: seq<Byte>): nat
    requires |h| == HEADER_SIZE
  {
    Sum(h[..148]) + 8 * SPACE + Sum(h[156..])
  }

  lemma {:induction false} SumBound(s: seq<Byte>)
    ensures Sum(s) <= 255 * |s|
  {
    if s != [] { SumBound(s[..|s| - 1]); }
  }

  lemma {:induction false} SumAppend(a: seq<Byte>, b: seq<Byte>)
    ensures Sum(a + b) == Sum(a) + Sum(b)
  {
    if b == [] {
      assert a + b == a;
    } else {
      assert (a + b)[..|a + b| - 1] == a + b[..|b| - 1];
      SumAppend(a, b[..|b| - 1]);
    }
  }

  /** The checksum is the sum of all the octets of a header whose checksum field is eight spaces. */
  lemma ChecksumIsSum(h: seq<Byte>)
    requires |h| == HEADER_SIZE
    ensures Checksum(h) == Sum(Spliced(h, 148, Fill(8, SPACE)))
  {
    var f := Fill(8, SPACE);
    SumAppend(h[..148], f);
    SumAppend(h[..148] + f, h[156..]);
    SumFill(8, SPACE);
    assert Spliced(h, 148, f) == h[..148] + f + h[156..];
  }

  lemma {:induction false} SumFill(n: nat, c: Byte)
    ensures Sum(Fill(n, c)) == n * c
  {
    if n > 0 {
      SumFill(n - 1, c);
      assert Fill(n, c)[..n - 1] == Fill(n - 1, c);
    }
  }

  /** One octet more or less moves a sum by as much. */
  lemma {:induction false} SumChanged(s: seq<Byte>, i: nat, c: Byte)
    requires i < |s|
    ensures Sum(s[i := c]) == Sum(s) + c - s[i]
  {
    var front, r := s[..|s| - 1], s[i := c];
    if i < |s| - 1 {
      SumChanged(front, i, c);
      assert r[..|r| - 1] == front[i := c];
    } else {
      assert r[..|r| - 1] == front;
    }
  }

  /** `calculate_chksum`. */
  method CalculateChksum(h: array<Byte>) returns (chksum: nat)
    requires h.Length == HEADER_SIZE
    ensures chksum == Checksum(h[..])
  {
    chksum := 0;
    var i := 0;
    while i < HEADER_SIZE
      invariant 0 <= i <= HEADER_SIZE
      invariant chksum == if i <= 148 then Sum(h[..i]) else if i <= 156 then Sum(h[..148]) + SPACE * (i - 148)
                          else Sum(h[..148]) + 8 * SPACE + Sum(h[156..i])
    {
      var inField := 148 <= i < 156;
      if i < 148 {
        assert h[..i + 1][..i] == h[..i];
      } else if i >= 156 {
        assert h[156..i + 1][..i - 156] == h[156..i];
      }
      chksum := chksum + (if inField then SPACE else h[i]);
      i := i + 1;
    }
    assert h[..][..148] == h[..148] && h[..][156..] == h[156..i];
  }

  predicate Field(h: seq<Byte>, ofs: nat, b: seq<Byte>) {
    ofs + |b| <= |h| && h[ofs..ofs + |b|] == b
  }

  const USTAR: seq<Byte> := [117, 115, 116, 97, 114]
  const ROOT: seq<Byte> := [114, 111, 111, 116]

  /** The fields before the checksum. */
  ghost predicate Numbers(h: seq<Byte>, name: seq<Byte>, kind: Kind, size: nat) {
    && |name| <= 99
    && Field(h, 0, name + [0]) && Field(h, |name| + 1, Fill(99 - |name|, 0))
    && Field(h, 100, Octal(Mode(kind), 7) + [0])
    && Field(h, 108, Fill(7, ZERO) + [0]) && Field(h, 116, Fill(7, ZERO) + [0])
    && Field(h, 124, Octal(size, 11) + [0]) && Field(h, 136, Octal(MTIME, 11) + [0])
  }

  /** The fields behind it. */
  ghost predicate Texts(h: seq<Byte>, kind: Kind) {
    && Field(h, 156, [TypeFlag(kind)]) && Field(h, 157, Fill(100, 0))
    && Field(h, 257, USTAR + [0]) && Field(h, 263, [ZERO, ZERO])
    && Field(h, 265, ROOT + [0]) && Field(h, 270, Fill(27, 0))
    && Field(h, 297, ROOT + [0]) && Field(h, 302, Fill(27, 0))
    && Field(h, 329, Fill(183, 0))
  }

  ghost predicate Filled(h: seq<Byte>, name: seq<Byte>, kind: Kind, size: nat) {
    |h| == HEADER_SIZE && Numbers(h, name, kind, size) && Texts(h, kind)
  }

  const MTIME: nat := 1136102400

  /** 0644 or 0755. */
  function Mode(kind: Kind): nat { if kind == Regular then 420 else 493 }

  // name, mode, uid, gid, size, mtime, chksum, typeflag, linkname, magic, version, uname, gname, devmajor, devminor, prefix, padding.
  const FIELD_SIZES: seq<nat> := [100, 8, 8, 8, 12, 12, 8, 1, 100, 6, 2, 32, 32, 8, 8, 155, 12]

  /** Where a field begins: behind all the fields in front of it. */
  function Offset(sizes: seq<nat>, k: nat): nat
    requires k <= |sizes|
  {
    if k == 0 then 0 else Offset(sizes, k - 1) + sizes[k - 1]
  }

  /** The places used here are those of the packed struct, and the modes are 0644 and 0755. */
  lemma Offsets()
    ensures forall k :: 0 <= k <= 17 ==>
              Offset(FIELD_SIZES, k) == [0, 100, 108, 116, 124, 136, 148, 156, 157, 257, 263, 265, 297, 329, 337, 345, 500, HEADER_SIZE][k]
    ensures Value([ZERO + 6, ZERO + 4, ZERO + 4]) == Mode(Regular) && Value([ZERO + 7, ZERO + 5, ZERO + 5]) == Mode(Directory)
  {
    var s := FIELD_SIZES;
    assert Offset(s, 1) == 100 && Offset(s, 2) == 108 && Offset(s, 3) == 116 && Offset(s, 4) == 124 && Offset(s, 5) == 136;
    assert Offset(s, 6) == 148 && Offset(s, 7) == 156 && Offset(s, 8) == 157 && Offset(s, 9) == 257 && Offset(s, 10) == 263;
    assert Offset(s, 11) == 265 && Offset(s, 12) == 297 && Offset(s, 13) == 329 && Offset(s, 14) == 337 && Offset(s, 15) == 345;
    assert Offset(s, 16) == 500 && Offset(s, 17) == HEADER_SIZE;
    ThreeDigits(6, 4, 4);
    ThreeDigits(7, 5, 5);
  }

  lemma ThreeDigits(a: nat, b: nat, c: nat)
    requires a < 8 && b < 8 && c < 8
    ensures Value([ZERO + a, ZERO + b, ZERO + c]) == 64 * a + 8 * b + c
  {
    var s: seq<Byte> := [ZERO + a, ZERO + b, ZERO + c];
    var t, u: seq<Byte> := s[..2], s[..1];
    assert t[..1] == u && u[..0] == [];
    assert Value(u) == a && Value(t) == 8 * Value(t[..1]) + b;
  }

  /** A complete header. */
  ghost predicate Layout(h: seq<Byte>, name: seq<Byte>, kind: Kind, size: nat) {
    Filled(h, name, kind, size) && Field(h, 148, Octal(Checksum(h), 7) + [0])
  }

  /** The fields before and behind the `n` bytes at `ofs` stay. */
  ghost predicate Keeps(h: seq<Byte>, r: seq<Byte>, ofs: nat, n: nat) {
    forall o: nat, c :: Field(h, o, c) && (o + |c| <= ofs || ofs + n <= o) ==> Field(r, o, c)
  }

  /** Writing one field leaves the others. */
  lemma SplicedFields(h: seq<Byte>, ofs: nat, b: seq<Byte>)
    requires ofs + |b| <= |h|
    ensures Field(Spliced(h, ofs, b), ofs, b)
    ensures Keeps(h, Spliced(h, ofs, b), ofs, |b|)
  {
    var r := Spliced(h, ofs, b);
    forall o: nat, c | Field(h, o, c) && (o + |c| <= ofs || ofs + |b| <= o) ensures Field(r, o, c) {
      assert r[o..o + |c|] == h[o..o + |c|];
    }
  }

  /** Parts of a field of NULs. */
  lemma ZeroParts(h: seq<Byte>, ofs: nat, n: nat)
    requires ofs + n <= |h| && forall k :: ofs <= k < ofs + n ==> h[k] == 0
    ensures Field(h, ofs, Fill(n, 0))
  {
    assert h[ofs..ofs + n] == Fill(n, 0);
  }

  method Put(h: array<Byte>, ofs: nat, b: seq<Byte>)
    requires ofs + |b| <= h.Length
    modifies h
    ensures h[..] == Spliced(old(h[..]), ofs, b)
    ensures Field(h[..], ofs, b)
    ensures Keeps(old(h[..]), h[..], ofs, |b|)
  {
    SplicedFields(h[..], ofs, b);
    forall k | 0 <= k < |b| {
      h[ofs + k] := b[k];
    }
    assert h[..] == Spliced(old(h[..]), ofs, b);
  }

  /** The checksum does not see its own field. */
  lemma ChecksumOfRest(h: seq<Byte>, b: seq<Byte>)
    requires |h| == HEADER_SIZE && |b| == 8
    ensures Checksum(Spliced(h, 148, b)) == Checksum(h) < Pow8(7)
  {
    var r := Spliced(h, 148, b);
    assert r[..148] == h[..148] && r[156..] == h[156..];
    SumBound(h[..148]);
    SumBound(h[156..]);
    assert Pow8(7) == 2097152 by { assert Pow8(3) == 512; }
  }

  /** A C int passed for %o. */
  function Unsigned(size: int): (u: nat)
    requires INT_MIN <= size <= INT_MAX
  {
    if size < 0 then size + ULONG_MAX + 1 else size
  }

  /** `ustar_make_header`. */
  method MakeHeader(fileName: seq<Byte>, kind: Kind, size: int, h: array<Byte>) returns (ok: bool)
    requires 0 !in fileName && INT_MIN <= size <= INT_MAX && h.Length == HEADER_SIZE
    modifies h
    ensures ok == (|Strip(fileName)| <= 99)
    ensures ok ==> Layout(h[..], Strip(fileName), kind, Unsigned(size))
    ensures !ok ==> h[..] == old(h[..])
  {
    hide Octal, Checksum, Field, Filled, Strip, Spliced;
    var name := StripPrefixes(fileName);
    if |name| > 99 {
      return false;
    }
    FillFields(name, kind, Unsigned(size), h);
    var sum := CalculateChksum(h);
    var chksum := FormatOctal(sum, 7);
    ChecksumOfRest(h[..], Fill(8, 0));
    OctalFits(sum, 7);
    ChecksumOfRest(h[..], chksum + [0]);
    ghost var before := h[..];
    Put(h, 148, chksum + [0]);
    FilledKept(before, h[..], name, kind, Unsigned(size));
    ok := true;
  }

  lemma FilledKept(h: seq<Byte>, h': seq<Byte>, name: seq<Byte>, kind: Kind, size: nat)
    requires Filled(h, name, kind, size) && |h'| == |h| && size < Pow8(11) && Keeps(h, h', 148, 8)
    ensures Filled(h', name, kind, size)
  {
    hide Numbers, Texts;
    NumbersKept(h, h', name, kind, size, 148, 8);
    TextsKept(h, h', kind);
  }

  lemma TextsKept(h: seq<Byte>, h': seq<Byte>, kind: Kind)
    requires Texts(h, kind) && Keeps(h, h', 148, 8)
    ensures Texts(h', kind)
  {
    hide Field;
  }

  lemma NumbersFit(kind: Kind, size: nat)
    requires size < Pow8(11)
    ensures |Octal(Mode(kind), 7)| == 7 && |Octal(size, 11)| == 11 == |Octal(MTIME, 11)|
  {
    assert Pow8(3) == 512 && Pow8(7) == 2097152 && Pow8(11) == 8589934592 by { Powers(); }
    OctalFits(Mode(kind), 7);
    OctalFits(size, 11);
    OctalFits(MTIME, 11);
  }

  lemma Powers()
    ensures Pow8(3) == 512 && Pow8(7) == 2097152 && Pow8(11) == 8589934592
  {
    assert Pow8(5) == 32768 && Pow8(9) == 134217728;
  }

  /** The memset. */
  method Clear(h: array<Byte>, n: nat)
    requires h.Length == HEADER_SIZE && n <= 99
    modifies h
    ensures Field(h[..], n + 1, Fill(99 - n, 0)) && Field(h[..], 157, Fill(100, 0))
    ensures Field(h[..], 270, Fill(27, 0)) && Field(h[..], 302, Fill(27, 0)) && Field(h[..], 329, Fill(183, 0))
  {
    forall k | 0 <= k < HEADER_SIZE {
      h[k] := 0;
    }
    ZeroParts(h[..], n + 1, 99 - n);
    ZeroParts(h[..], 157, 100);
    ZeroParts(h[..], 270, 27);
    ZeroParts(h[..], 302, 27);
    ZeroParts(h[..], 329, 183);
  }

  /** The assignments of `ustar_make_header` before the checksum, in their order. */
  method FillFields(name: seq<Byte>, kind: Kind, size: nat, h: array<Byte>)
    requires |name| <= 99 && size <= ULONG_MAX && h.Length == HEADER_SIZE
    modifies h
    ensures Filled(h[..], name, kind, size)
  {
    hide Octal, Field, Texts, Numbers;
    Clear(h, |name|);
    FillNumbers(name, kind, size, h);
    ghost var before := h[..];
    FillTexts(kind, h);
    Powers();
    NumbersKept(before, h[..], name, kind, size, 156, 356);
  }

  lemma NumbersKept(h: seq<Byte>, h': seq<Byte>, name: seq<Byte>, kind: Kind, size: nat, ofs: nat, n: nat)
    requires Numbers(h, name, kind, size) && size < Pow8(11) && ofs >= 148 && Keeps(h, h', ofs, n)
    ensures Numbers(h', name, kind, size)
  {
    NumbersFit(kind, size);
    hide Octal, Field;
  }

  method FillNumbers(name: seq<Byte>, kind: Kind, size: nat, h: array<Byte>)
    requires |name| <= 99 && size <= ULONG_MAX && h.Length == HEADER_SIZE && Field(h[..], |name| + 1, Fill(99 - |name|, 0))
    modifies h
    ensures Numbers(h[..], name, kind, size) && Keeps(old(h[..]), h[..], 0, 148)
  {
    hide Octal, Field, Spliced;
    Powers();
    NumbersFit(kind, size);
    Put(h, 0, name + [0]);
    var mode := FormatOctal(Mode(kind), 7);
    Put(h, 100, mode + [0]);
    Put(h, 108, Fill(7, ZERO) + [0]);
    Put(h, 116, Fill(7, ZERO) + [0]);
    var digits := FormatOctal(size, 11);
    Put(h, 124, digits + [0]);
    var mtime := FormatOctal(MTIME, 11);
    Put(h, 136, mtime + [0]);
  }

  method FillTexts(kind: Kind, h: array<Byte>)
    requires h.Length == HEADER_SIZE && Field(h[..], 157, Fill(100, 0))
    requires Field(h[..], 270, Fill(27, 0)) && Field(h[..], 302, Fill(27, 0)) && Field(h[..], 329, Fill(183, 0))
    modifies h
    ensures Texts(h[..], kind) && Keeps(old(h[..]), h[..], 156, 356)
  {
    hide Field, Spliced;
    Put(h, 156, [TypeFlag(kind)]);
    Put(h, 257, USTAR + [0]);
    Put(h, 263, [ZERO, ZERO]);
    Put(h, 297, ROOT + [0]);
    Put(h, 265, ROOT + [0]);
  }

  // ----- Parsing

  datatype Reason =
    | NotUstar | BadVersion | CorruptChecksum | ChecksumMismatch | NameTooLong | UnknownType | CorruptSize | FileTooLarge

  datatype Parsed = EndOfArchive | File(name: seq<Byte>, kind: Kind, size: nat) | Error(reason: Reason)

  /** What a header says. */
  function Meaning(h: seq<Byte>): Parsed
    requires |h| == HEADER_SIZE
  {
    var chksum, size := FieldValue(h[148..156]), FieldValue(h[124..136]);
    if forall k :: 0 <= k < HEADER_SIZE ==> h[k] == 0 then EndOfArchive
    else if h[257..263] != USTAR + [0] then Error(NotUstar)
    else if h[263..265] != [ZERO, ZERO] then Error(BadVersion)
    else if chksum.None? then Error(CorruptChecksum)
    else if chksum.value != Checksum(h) then Error(ChecksumMismatch)
    else if h[99] != 0 || h[345] != 0 then Error(NameTooLong)
    else if h[156] != TypeFlag(Regular) && h[156] != TypeFlag(Directory) then Error(UnknownType)
    else if h[156] == TypeFlag(Directory) then File(Strip(CString(h[..100], 0)), Directory, 0)
    else if size.None? then Error(CorruptSize)
    else if size.value > INT_MAX then Error(FileTooLarge)
    else File(Strip(CString(h[..100], 0)), Regular, size.value)
  }

  /** `is_all_zeros`. */
  method IsAllZeros(h: array<Byte>) returns (r: bool)
    requires h.Length == HEADER_SIZE
    ensures r <==> forall k :: 0 <= k < HEADER_SIZE ==> h[..][k] == 0
  {
    for i := 0 to HEADER_SIZE
      invariant forall k :: 0 <= k < i ==> h[k] == 0
    {
      if h[i] != 0 {
        assert h[..][i] != 0;
        return false;
      }
    }
    return true;
  }

  /** `ustar_parse_header`. */
  method ParseHeader(h: array<Byte>) returns (r: Parsed)
    requires h.Length == HEADER_SIZE
    ensures r == Meaning(h[..])
  {
    hide FieldValue, Checksum, Strip, CString;
    var zeros := IsAllZeros(h);
    if zeros {
      return EndOfArchive;
    }
    assert h[..][257..263] == h[257..263] && h[..][263..265] == h[263..265];
    assert h[..][148..156] == h[148..156] && h[..][124..136] == h[124..136] && h[..][..100] == h[..100];
    if h[257..263] != USTAR + [0] {
      return Error(NotUstar);
    }
    if h[263] != ZERO || h[264] != ZERO {
      assert h[263..265][0] == h[263] && h[263..265][1] == h[264];
      return Error(BadVersion);
    }
    var chksum := ParseOctalField(h[148..156]);
    if chksum.None? {
      return Error(CorruptChecksum);
    }
    var sum := CalculateChksum(h);
    if chksum.value != sum {
      return Error(ChecksumMismatch);
    }
    if h[99] != 0 || h[345] != 0 {
      return Error(NameTooLong);
    }
    if h[156] != TypeFlag(Regular) && h[156] != TypeFlag(Directory) {
      return Error(UnknownType);
    }
    var size := 0;
    if h[156] == TypeFlag(Regular) {
      var field := ParseOctalField(h[124..136]);
      if field.None? {
        return Error(CorruptSize);
      } else if field.value > INT_MAX {
        return Error(FileTooLarge);
      }
      size := field.value;
    }
    var name := StripPrefixes(CString(h[..100], 0));
    r := File(name, if h[156] == TypeFlag(Regular) then Regular else Directory, size);
  }

  /** Parsing what `ustar_make_header` made gives the stripped name, the type and the size of a regular file that fits an int. */
  lemma RoundTrip(h: seq<Byte>, fileName: seq<Byte>, kind: Kind, size: int)
    requires 0 !in fileName && INT_MIN <= size <= INT_MAX && Layout(h, Strip(fileName), kind, Unsigned(size))
    ensures Meaning(h) == if kind == Directory then File(Strip(fileName), Directory, 0)
                          else if size >= 0 then File(Strip(fileName), Regular, size)
                          else Error(FileTooLarge)
  {
    hide Octal, FieldValue, Checksum, Strip, CString, Pow8;
    var name := Strip(fileName);
    StripIsClean(fileName);
    ChecksumFits(h);
    OctalRoundTrip(Checksum(h), 7);
    Powers();
    OctalRoundTrip(Unsigned(size), 11);
    NumbersFit(kind, Unsigned(size));
    OctalFits(Checksum(h), 7);
    Places(h, name, kind, Unsigned(size));
    CStringIs(h[..100], 0, name);
  }

  lemma ChecksumFits(h: seq<Byte>)
    requires |h| == HEADER_SIZE
    ensures Checksum(h) < Pow8(7) && Checksum(h) <= ULONG_MAX
  {
    Powers();
    SumBound(h[..148]);
    SumBound(h[156..]);
  }

  /** Where the parser looks. */
  lemma Places(h: seq<Byte>, name: seq<Byte>, kind: Kind, size: nat)
    requires Layout(h, name, kind, size) && size < Pow8(11) && |Octal(Checksum(h), 7)| == 7
    ensures h[148..156] == Octal(Checksum(h), 7) + [0] && h[124..136] == Octal(size, 11) + [0]
    ensures h[257..263] == USTAR + [0] && h[263..265] == [ZERO, ZERO] && h[156] == TypeFlag(kind) && h[257] != 0
    ensures h[..100][..|name|] == name && h[|name|] == 0 && h[99] == 0 && h[345] == 0
  {
    hide Octal, Checksum;
    NumbersFit(kind, size);
    var n := |name|;
    assert h[0..n + 1][..n] == name && h[0..n + 1][n] == 0;
    if n < 99 { assert h[n + 1..100][98 - n] == 0; }
    assert h[329..512][16] == 0;
    assert h[156..157][0] == TypeFlag(kind);
    assert h[257..263][0] == 117;
  }

  /** A header of a file is accepted if and only if all its fields are in order, in whatever order they are looked at. */
  lemma Accepted(h: seq<Byte>)
    requires |h| == HEADER_SIZE
    ensures Meaning(h).File? <==>
              && Field(h, 257, USTAR + [0]) && Field(h, 263, [ZERO, ZERO])
              && FieldValue(h[148..156]) == Some(Checksum(h))
              && h[99] == 0 && h[345] == 0
              && (h[156] == TypeFlag(Directory)
                  || (h[156] == TypeFlag(Regular) && FieldValue(h[124..136]).Some? && FieldValue(h[124..136]).value <= INT_MAX))
  {
    hide FieldValue, Checksum, Strip;
    if Field(h, 257, USTAR + [0]) { assert h[257..263][0] == 117 && h[257] != 0; }
  }

  /** A header that does not carry its own checksum is refused. */
  lemma BadChecksum(h: seq<Byte>)
    requires |h| == HEADER_SIZE && FieldValue(h[148..156]) != Some(Checksum(h))
    ensures Meaning(h).Error? || h == Fill(HEADER_SIZE, 0)
  {
    hide FieldValue, Checksum, Strip;
  }

  /** If one octet of an accepted header is changed, outside the checksum field, the header is refused. */
  lemma DamageDetected(h: seq<Byte>, i: nat, c: Byte)
    requires |h| == HEADER_SIZE && Meaning(h).File? && i < HEADER_SIZE && (i < 148 || 156 <= i) && c != h[i]
    ensures Meaning(h[i := c]).Error?
  {
    hide FieldValue, Strip, CString;
    var h' := h[i := c];
    Accepted(h);
    if i < 148 {
      SumChanged(h[..148], i, c);
      assert h'[..148] == h[..148][i := c] && h'[156..] == h[156..];
    } else {
      SumChanged(h[156..], i - 156, c);
      assert h'[156..] == h[156..][i - 156 := c] && h'[..148] == h[..148];
    }
    assert h'[148..156] == h[148..156];
    NotBlank(h[148..156]);
    BadChecksum(h');
    assert exists k :: 148 <= k < 156 && h'[k] != 0;
  }

  lemma NotBlank(s: seq<Byte>)
    requires FieldValue(s).Some?
    ensures |s| > 0 && s[0] != 0
  {
  }
}
