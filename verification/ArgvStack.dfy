/**
 Splitting the command line (lib/string.c, strtok_r) and building the initial
 user stack (userprog/process.c, setup_stack).  `Tokens` says what the words of
 a command line are; `Decode` reads a stack the way a C program's start-up code
 does.
 */
module ArgvStack {
  import opened Sequences

  const SPACE: Byte := 32
  const PAGE: nat := PHYS_BASE - PGSIZE
  const ARG_MAX: nat := 100

  // ----- Strings

  /** The number of bytes before the first space. */
  function WordLength(s: seq<Byte>): (n: nat)
    ensures n <= |s| && SPACE !in s[..n] && (n == |s| || s[n] == SPACE)
  {
    if s == [] || s[0] == SPACE then 0 else 1 + WordLength(s[1..])
  }

  /** The maximal words without a space, in order. */
  function Tokens(s: seq<Byte>): seq<seq<Byte>>
    decreases |s|
  {
    if s == [] then []
    else if s[0] == SPACE then Tokens(s[1..])
    else [s[..WordLength(s)]] + Tokens(s[WordLength(s)..])
  }

  /** The words of a line: a word ends at the next space or with the line, and spaces make no words. */
  lemma TokensSplit(word: seq<Byte>, rest: seq<Byte>)
    requires word != [] && SPACE !in word
    ensures Tokens(word) == [word] && Tokens(word + [SPACE] + rest) == [word] + Tokens(rest)
    ensures Tokens([SPACE] + rest) == Tokens(rest)
  {
    WordEnds(word, [], |word|);
    var line := word + [SPACE] + rest;
    WordEnds(word, [SPACE] + rest, |word|);
    assert line == word + ([SPACE] + rest);
    assert line[..|word|] == word && line[|word|..] == [SPACE] + rest;
    assert ([SPACE] + rest)[1..] == rest && word + [] == word && word[|word|..] == [] && word[..|word|] == word;
  }

  lemma {:induction false} WordEnds(word: seq<Byte>, rest: seq<Byte>, n: nat)
    requires n == |word| && SPACE !in word && (rest == [] || rest[0] == SPACE)
    ensures WordLength(word + rest) == n
    decreases n
  {
    if n > 0 {
      assert word[0] in word;
      WordEnds(word[1..], rest, n - 1);
      assert (word + rest)[1..] == word[1..] + rest;
    } else {
      assert word + rest == rest;
    }
  }

  /** What is in front of position `i` does not matter. */
  lemma {:induction false} CStringFrame(a: seq<Byte>, b: seq<Byte>, i: nat)
    requires i <= |a| == |b| && a[i..] == b[i..]
    ensures CString(a, i) == CString(b, i)
    decreases |a| - i
  {
    if i < |a| {
      assert a[i] == a[i..][0] == b[i..][0] == b[i];
      assert a[i + 1..] == a[i..][1..];
      assert b[i + 1..] == b[i..][1..];
      CStringFrame(a, b, i + 1);
    }
  }

  /** `strtok_r` with the delimiters " ", from position `start`; the NUL at the end of the buffer stays. */
  method StrTok(buf: array<Byte>, start: nat) returns (token: Option<nat>, save: nat)
    requires start < buf.Length && buf[buf.Length - 1] == 0
    modifies buf
    ensures start <= save < buf.Length && buf[buf.Length - 1] == 0
    ensures buf[..start] == old(buf[..start]) && buf[save..] == old(buf[save..])
    ensures buf[..] == old(buf[..])
            || (save > start && old(buf[..])[save - 1] == SPACE && buf[..] == old(buf[..])[save - 1 := 0])
    ensures var words := Tokens(old(CString(buf[..], start)));
            if words == [] then token == None && Tokens(CString(buf[..], save)) == []
            else token.Some? && start <= token.value < save
                 && CString(buf[..], token.value) == words[0] && Tokens(CString(buf[..], save)) == words[1..]
  {
    hide CString, Tokens, WordLength;
    ghost var was := buf[..];
    var t := SkipSpaces(buf, start);
    AtWord(was, t);
    if buf[t] == 0 {
      return None, t;
    }
    token := Some(t);
    save := TakeWord(buf, start, t);
    assert buf[save..] == buf[..][save..] && buf[..start] == buf[..][..start];
  }

  /** Finds the end of the word at `t` and ends it with a NUL. */
  method TakeWord(buf: array<Byte>, ghost start: nat, t: nat) returns (save: nat)
    requires start <= t < buf.Length && buf[buf.Length - 1] == 0 && buf[t] != SPACE && buf[t] != 0
    modifies buf
    ensures t < save < buf.Length && buf[buf.Length - 1] == 0
    ensures buf[..][..start] == old(buf[..])[..start] && buf[..][save..] == old(buf[..])[save..]
    ensures buf[..] == old(buf[..]) || (old(buf[..])[save - 1] == SPACE && buf[..] == old(buf[..])[save - 1 := 0])
    ensures var words := Tokens(CString(old(buf[..]), t));
            words != [] && words[0] == CString(buf[..], t) && words[1..] == Tokens(CString(buf[..], save))
  {
    hide CString, Tokens, WordLength;
    ghost var was := buf[..];
    var s := SkipWord(buf, t);
    assert was[t..s] == buf[t..s];
    save := EndWord(buf, s);
    CutWord(was, buf[..], start, t, s, save);
  }

  /** Ending the word that starts at `t` with a NUL at `s`. */
  lemma CutWord(b: seq<Byte>, b': seq<Byte>, start: nat, t: nat, s: nat, save: nat)
    requires start <= t < s < |b| && b[|b| - 1] == 0 && 0 !in b[t..s] && SPACE !in b[t..s] && (b[s] == SPACE || b[s] == 0)
    requires b' == b[s := 0] && save == if b[s] == 0 then s else s + 1
    ensures save < |b| && b'[|b| - 1] == 0 && b'[..start] == b[..start] && b'[save..] == b[save..]
    ensures b' == b || (save > start && b[save - 1] == SPACE && b' == b[save - 1 := 0])
    ensures var words := Tokens(CString(b, t));
            words != [] && words[0] == CString(b', t) && words[1..] == Tokens(CString(b', save))
  {
    hide CString, Tokens, WordLength;
    FirstWord(b, t, s);
    assert b'[t..s] == b[t..s];
    CStringIs(b', t, b[t..s]);
    CStringFrame(b, b', save);
  }

  /** The delimiter after a word becomes a NUL. */
  method EndWord(buf: array<Byte>, s: nat) returns (save: nat)
    requires s < buf.Length
    modifies buf
    ensures buf[..] == old(buf[..])[s := 0]
    ensures save == if old(buf[..])[s] == 0 then s else s + 1
  {
    save := s;
    if buf[s] != 0 {
      buf[s] := 0;
      save := s + 1;
    }
  }

  /** The loop that skips delimiters. */
  method SkipSpaces(buf: array<Byte>, start: nat) returns (s: nat)
    requires start < buf.Length && buf[buf.Length - 1] == 0
    ensures start <= s < buf.Length && buf[s] != SPACE && Tokens(CString(buf[..], s)) == Tokens(CString(buf[..], start))
  {
    hide CString, Tokens;
    s := start;
    while buf[s] == SPACE
      invariant start <= s < buf.Length && Tokens(CString(buf[..], s)) == Tokens(CString(buf[..], start))
      decreases buf.Length - s
    {
      Spaced(buf[..], s);
      s := s + 1;
    }
  }

  /** The loop that skips non-delimiters. */
  method SkipWord(buf: array<Byte>, t: nat) returns (s: nat)
    requires t < buf.Length && buf[buf.Length - 1] == 0 && buf[t] != SPACE && buf[t] != 0
    ensures t < s < buf.Length && 0 !in buf[t..s] && SPACE !in buf[t..s] && (buf[s] == SPACE || buf[s] == 0)
  {
    s := t;
    while buf[s] != SPACE && buf[s] != 0
      invariant t <= s < buf.Length && 0 !in buf[t..s] && SPACE !in buf[t..s]
      decreases buf.Length - s
    {
      assert buf[t..s + 1] == buf[t..s] + [buf[s]];
      s := s + 1;
    }
  }

  lemma Spaced(b: seq<Byte>, s: nat)
    requires s + 1 < |b| && b[s] == SPACE
    ensures Tokens(CString(b, s)) == Tokens(CString(b, s + 1))
  {
    assert CString(b, s)[1..] == CString(b, s + 1);
  }

  lemma AtWord(b: seq<Byte>, s: nat)
    requires s < |b| && b[s] != SPACE
    ensures b[s] == 0 <==> Tokens(CString(b, s)) == []
  {
  }

  /** The first word, from `t` to `s`, and what follows it. */
  lemma FirstWord(b: seq<Byte>, t: nat, s: nat)
    requires t < s < |b| && b[|b| - 1] == 0 && 0 !in b[t..s] && SPACE !in b[t..s] && (b[s] == SPACE || b[s] == 0)
    ensures var words := Tokens(CString(b, t));
            words != [] && words[0] == b[t..s] && words[1..] == Tokens(CString(b, if b[s] == 0 then s else s + 1))
  {
    var line := CString(b, t);
    CStringSplit(b, t, s);
    assert line[..s - t] == b[t..s] && line[s - t..] == CString(b, s);
    assert b[t] == b[t..s][0];
    WordIs(line, s - t);
    if b[s] == SPACE { Spaced(b, s); }
  }

  lemma {:induction false} CStringSplit(b: seq<Byte>, t: nat, s: nat)
    requires t <= s <= |b| && 0 !in b[t..s]
    ensures CString(b, t) == b[t..s] + CString(b, s)
    decreases s - t
  {
    if t < s {
      assert b[t] == b[t..s][0];
      assert b[t..s] == [b[t]] + b[t + 1..s];
      CStringSplit(b, t + 1, s);
    }
  }

  lemma {:induction false} WordIs(line: seq<Byte>, n: nat)
    requires n <= |line| && SPACE !in line[..n] && (n == |line| || line[n] == SPACE)
    ensures WordLength(line) == n
  {
    if n > 0 {
      assert line[0] == line[..n][0];
      assert line[1..][..n - 1] == line[..n][1..];
      WordIs(line[1..], n - 1);
    }
  }

  // ----- Words and strings in the stack page

  /** A 32-bit number as the processor stores it. */
  function Le(v: int): (b: seq<Byte>)
    ensures |b| == 4
  {
    [v % 256, v / 256 % 256, v / 65536 % 256, v / 16777216 % 256]
  }

  /** The 32-bit number at address `a`. */
  function Word(m: seq<Byte>, a: int): nat {
    if |m| == PGSIZE && PAGE <= a <= PHYS_BASE - 4 then
      Quad(m[a - PAGE], m[a - PAGE + 1], m[a - PAGE + 2], m[a - PAGE + 3])
    else 0
  }

  function Quad(a: nat, b: nat, c: nat, d: nat): nat { a + 256 * b + 65536 * c + 16777216 * d }

  function StringAt(m: seq<Byte>, a: int): seq<Byte> {
    if |m| == PGSIZE && PAGE <= a <= PHYS_BASE then CString(m, a - PAGE) else []
  }

  /** The arguments as the start-up code of a program finds them: argc at esp + 4, argv at esp + 8. */
  function Decode(m: seq<Byte>, esp: int): seq<seq<Byte>> {
    seq(Word(m, esp + 4), i requires 0 <= i => StringAt(m, Word(m, Word(m, esp + 8) + 4 * i)))
  }

  predicate Holds(m: seq<Byte>, a: int, b: seq<Byte>) {
    |m| == PGSIZE && PAGE < a && a + |b| <= PHYS_BASE && m[a - PAGE..a - PAGE + |b|] == b
  }

  lemma WordRoundTrip(m: seq<Byte>, a: int, v: nat)
    requires Holds(m, a, Le(v)) && v < 0x1_0000_0000
    ensures Word(m, a) == v
  {
    var k := a - PAGE;
    var b := m[k..k + 4];
    assert m[k] == b[0] && m[k + 1] == b[1] && m[k + 2] == b[2] && m[k + 3] == b[3];
    Digits(v);
  }

  lemma Digits(v: nat)
    requires v < 0x1_0000_0000
    ensures v % 256 + 256 * (v / 256 % 256) + 65536 * (v / 65536 % 256) + 16777216 * (v / 16777216 % 256) == v
  {
    var a, b := v / 256, v / 65536;
    assert b == a / 256 && v / 16777216 == b / 256;
  }

  lemma StringRoundTrip(m: seq<Byte>, a: int, w: seq<Byte>)
    requires Holds(m, a, w + [0]) && 0 !in w
    ensures StringAt(m, a) == w
  {
    hide CString;
    var k := a - PAGE;
    assert m[k..k + |w|] == m[k..k + |w| + 1][..|w|] == w;
    assert m[k + |w|] == m[k..k + |w| + 1][|w|] == 0;
    CStringIs(m, k, w);
  }

  /** The page is unchanged from `e` on. */
  ghost predicate SameAbove(m: seq<Byte>, m': seq<Byte>, e: int) {
    |m| == |m'| && forall k :: 0 <= k < |m| && PAGE + k >= e ==> m'[k] == m[k]
  }

  lemma KeptAbove(m: seq<Byte>, m': seq<Byte>, e: int, a: int, b: seq<Byte>)
    requires SameAbove(m, m', e) && a >= e
    ensures Holds(m, a, b) ==> Holds(m', a, b)
    ensures Tail(m, a, b) ==> Tail(m', a, b)
  {
  }

  /** From `e` to the top, the page holds exactly `b`. */
  ghost predicate Tail(m: seq<Byte>, e: int, b: seq<Byte>) {
    |m| == PGSIZE && PAGE < e && e + |b| == PHYS_BASE && m[e - PAGE..] == b
  }

  lemma Peel(m: seq<Byte>, e: int, b: seq<Byte>, rest: seq<Byte>)
    requires Tail(m, e, b + rest)
    ensures Holds(m, e, b) && Tail(m, e + |b|, rest)
  {
    var k := e - PAGE;
    assert m[k..k + |b|] == m[k..][..|b|] == b;
    assert m[k + |b|..] == m[k..][|b|..] == rest;
  }

  // ----- Where things go

  /** Bytes taken by the strings with their NULs. */
  function Bytes(words: seq<seq<Byte>>): nat {
    if words == [] then 0 else Bytes(words[..|words| - 1]) + |words[|words| - 1]| + 1
  }

  function RoundUp4(n: nat): (r: nat)
    ensures n <= r < n + 4 && r % 4 == 0
  {
    (n + 3) / 4 * 4
  }

  /** Strings, padding, argv[0..argc], argv, argc and the return address. */
  function StackSize(words: seq<seq<Byte>>): nat {
    RoundUp4(Bytes(words)) + 4 * (|words| + 1) + 12
  }

  function StringAddr(words: seq<seq<Byte>>, i: nat): int
    requires i < |words|
  {
    PHYS_BASE - Bytes(words[..i + 1])
  }

  /** The argument vector that the program is promised: argv, the pointers, and the strings. */
  ghost predicate ArgsLaid(m: seq<Byte>, words: seq<seq<Byte>>, esp: int) {
    && esp == PHYS_BASE - StackSize(words) && PAGE < esp + 8
    && Holds(m, esp + 8, Le(esp + 12))
    && (forall i :: 0 <= i < |words| ==> Holds(m, esp + 12 + 4 * i, Le(StringAddr(words, i))))
    && Holds(m, esp + 12 + 4 * |words|, Le(0))
    && (forall i :: 0 <= i < |words| ==> Holds(m, StringAddr(words, i), words[i] + [0]))
  }

  /** The same with argc. */
  ghost predicate Layout(m: seq<Byte>, words: seq<seq<Byte>>, esp: int) {
    ArgsLaid(m, words, esp) && PAGE < esp + 4 && Holds(m, esp + 4, Le(|words|))
  }

  /** Nothing overlaps: strings follow each other downwards from the top, the pointers lie below them. */
  lemma {:induction false} Disjoint(words: seq<seq<Byte>>, i: nat)
    requires i < |words|
    ensures StringAddr(words, i) + |words[i]| + 1 == if i == 0 then PHYS_BASE else StringAddr(words, i - 1)
    ensures PHYS_BASE - StackSize(words) + 12 + 4 * (|words| + 1) <= StringAddr(words, i)
    ensures (PHYS_BASE - StackSize(words)) % 4 == 0
  {
    assert words[..i + 1][..i] == words[..i];
    BytesGrow(words, i + 1);
  }

  lemma {:induction false} BytesGrow(words: seq<seq<Byte>>, i: nat)
    requires i <= |words|
    ensures Bytes(words[..i]) <= Bytes(words)
    decreases |words| - i
  {
    if i < |words| {
      assert words[..i + 1][..i] == words[..i];
      BytesGrow(words, i + 1);
    } else {
      assert words[..i] == words;
    }
  }

  /** With the argument vector laid out, decoding gives the words if and only if argc is their number. */
  lemma ArgsDecode(m: seq<Byte>, words: seq<seq<Byte>>, esp: int)
    requires ArgsLaid(m, words, esp) && (forall i :: 0 <= i < |words| ==> 0 !in words[i])
    ensures Decode(m, esp) == words <==> Word(m, esp + 4) == |words|
    ensures Word(m, Word(m, esp + 8) + 4 * |words|) == 0
    ensures forall i :: 0 <= i < |words| ==> Word(m, Word(m, esp + 8) + 4 * i) == StringAddr(words, i)
  {
    hide Decode, Word, StringAt, ArgsLaid;
    ArgsFixed(m, words, esp);
    forall i | 0 <= i < |words|
      ensures Word(m, esp + 12 + 4 * i) == StringAddr(words, i) && StringAt(m, StringAddr(words, i)) == words[i]
    {
      ArgsString(m, words, esp, i);
    }
    if Word(m, esp + 4) == |words| {
      DecodeIs(m, esp, words);
    } else {
      DecodeLength(m, esp);
    }
  }

  lemma DecodeLength(m: seq<Byte>, esp: int)
    ensures |Decode(m, esp)| == Word(m, esp + 4)
  {
  }

  lemma ArgsFixed(m: seq<Byte>, words: seq<seq<Byte>>, esp: int)
    requires ArgsLaid(m, words, esp)
    ensures StackSize(words) <= PGSIZE + 4 && |words| < PGSIZE
    ensures Word(m, esp + 8) == esp + 12 && Word(m, esp + 12 + 4 * |words|) == 0
  {
    ArgsSize(m, words, esp);
    hide ArgsLaid, Word, Holds, Le, StackSize;
    WordRoundTrip(m, esp + 8, esp + 12);
    WordRoundTrip(m, esp + 12 + 4 * |words|, 0);
  }

  lemma ArgsSize(m: seq<Byte>, words: seq<seq<Byte>>, esp: int)
    requires ArgsLaid(m, words, esp)
    ensures StackSize(words) <= PGSIZE + 4 && |words| < PGSIZE && 0 <= esp < PHYS_BASE
    ensures Holds(m, esp + 8, Le(esp + 12)) && Holds(m, esp + 12 + 4 * |words|, Le(0))
  {
    hide Holds, Le;
    SizeIsWords(words);
  }

  lemma SizeIsWords(words: seq<seq<Byte>>)
    ensures StackSize(words) % 4 == 0
  {
  }

  lemma ArgsString(m: seq<Byte>, words: seq<seq<Byte>>, esp: int, i: nat)
    requires ArgsLaid(m, words, esp) && i < |words| && 0 !in words[i]
    ensures Word(m, esp + 12 + 4 * i) == StringAddr(words, i) && StringAt(m, StringAddr(words, i)) == words[i]
  {
    InPage(words, i);
    hide Word, Holds, Le, StackSize, StringAt, StringAddr;
    WordRoundTrip(m, esp + 12 + 4 * i, StringAddr(words, i));
    StringRoundTrip(m, StringAddr(words, i), words[i]);
  }

  lemma InPage(words: seq<seq<Byte>>, i: nat)
    requires i < |words| && StackSize(words) <= PGSIZE + 8
    ensures PAGE < StringAddr(words, i) < PHYS_BASE
  {
    Disjoint(words, i);
  }

  lemma DecodeIs(m: seq<Byte>, esp: int, words: seq<seq<Byte>>)
    requires Word(m, esp + 4) == |words|
    requires forall i :: 0 <= i < |words| ==> StringAt(m, Word(m, Word(m, esp + 8) + 4 * i)) == words[i]
    ensures Decode(m, esp) == words
  {
  }

  // ----- The bytes of the stack

  function Strings(words: seq<seq<Byte>>): (b: seq<Byte>)
    ensures |b| == Bytes(words)
  {
    if words == [] then [] else words[|words| - 1] + [0] + Strings(words[..|words| - 1])
  }

  function Vector(ptrs: seq<int>): (b: seq<Byte>)
    ensures |b| == 4 * |ptrs|
  {
    if ptrs == [] then [] else Le(ptrs[0]) + Vector(ptrs[1..])
  }

  /** argv[0..argc]. */
  function Pointers(words: seq<seq<Byte>>): (p: seq<int>)
    ensures |p| == |words| + 1
  {
    seq(|words|, i requires 0 <= i < |words| => StringAddr(words, i)) + [0]
  }

  function Padding(words: seq<seq<Byte>>): nat { RoundUp4(Bytes(words)) - Bytes(words) }

  function Arguments(words: seq<seq<Byte>>): seq<Byte> {
    Vector(Pointers(words)) + (Zeros(Padding(words)) + Strings(words))
  }

  /** argv and what lies above it. */
  function Image(words: seq<seq<Byte>>, esp: int): seq<Byte> {
    Le(esp + 12) + Arguments(words)
  }

  lemma {:induction false} StringsHold(m: seq<Byte>, words: seq<seq<Byte>>, i: nat)
    requires Tail(m, PHYS_BASE - Bytes(words), Strings(words)) && i < |words|
    ensures Holds(m, StringAddr(words, i), words[i] + [0])
  {
    var last := |words| - 1;
    Peel(m, PHYS_BASE - Bytes(words), words[last] + [0], Strings(words[..last]));
    if i < last {
      StringsHold(m, words[..last], i);
      assert words[..last][..i + 1] == words[..i + 1];
    } else {
      assert words[..i + 1] == words;
    }
  }

  lemma {:induction false} VectorHolds(m: seq<Byte>, e: int, ptrs: seq<int>, rest: seq<Byte>, i: nat)
    requires Tail(m, e, Vector(ptrs) + rest) && i <= |ptrs|
    ensures i < |ptrs| ==> Holds(m, e + 4 * i, Le(ptrs[i]))
    ensures Tail(m, e + 4 * |ptrs|, rest)
    decreases |ptrs|
  {
    hide Le, Holds, Tail, Vector;
    VectorJoin(ptrs, rest);
    if ptrs != [] {
      Peel(m, e, Le(ptrs[0]), Vector(ptrs[1..]) + rest);
      VectorHolds(m, e + 4, ptrs[1..], rest, if i > 0 then i - 1 else 0);
    }
  }

  lemma VectorJoin(ptrs: seq<int>, rest: seq<Byte>)
    ensures Vector(ptrs) + rest == if ptrs == [] then rest else Le(ptrs[0]) + (Vector(ptrs[1..]) + rest)
  {
    hide Le;
  }

  /** The bytes are the promised argument vector. */
  lemma ImageIsLaid(m: seq<Byte>, words: seq<seq<Byte>>, esp: int)
    requires esp == PHYS_BASE - StackSize(words) && Tail(m, esp + 8, Image(words, esp))
    ensures ArgsLaid(m, words, esp)
  {
    hide Holds, Tail, Le, Strings, Vector, StringAddr;
    var strings := Zeros(Padding(words)) + Strings(words);
    Peel(m, esp + 8, Le(esp + 12), Arguments(words));
    forall i | 0 <= i < |words| ensures Holds(m, esp + 12 + 4 * i, Le(StringAddr(words, i))) {
      VectorHolds(m, esp + 12, Pointers(words), strings, i);
      assert Pointers(words)[i] == StringAddr(words, i);
    }
    VectorHolds(m, esp + 12, Pointers(words), strings, |words|);
    Peel(m, esp + 12 + 4 * (|words| + 1), Zeros(Padding(words)), Strings(words));
    forall i | 0 <= i < |words| ensures Holds(m, StringAddr(words, i), words[i] + [0]) {
      StringsHold(m, words, i);
    }
    assert Pointers(words)[|words|] == 0;
    TailAbove(m, esp + 8, Image(words, esp));
  }

  lemma TailAbove(m: seq<Byte>, e: int, b: seq<Byte>)
    requires Tail(m, e, b)
    ensures PAGE < e
  {
  }

  // ----- setup_stack

  lemma {:induction false} TokensClean(s: seq<Byte>)
    requires 0 !in s
    ensures forall i :: 0 <= i < |Tokens(s)| ==> 0 !in Tokens(s)[i]
    decreases |s|
  {
    if s != [] {
      var n := WordLength(s);
      if s[0] == SPACE {
        TokensClean(s[1..]);
      } else {
        TokensClean(s[n..]);
      }
    }
  }

  /** A command line that fits the argument buffer has a stack that fits the page. */
  lemma {:induction false} TokensBytes(s: seq<Byte>)
    ensures 2 * |Tokens(s)| <= Bytes(Tokens(s)) <= |s| + 1
    ensures s != [] && s[0] == SPACE ==> Bytes(Tokens(s)) <= |s|
    decreases |s|
  {
    if s != [] {
      if s[0] == SPACE {
        TokensBytes(s[1..]);
      } else {
        var n := WordLength(s);
        TokensBytes(s[n..]);
        BytesFirst(Tokens(s));
      }
    }
  }

  lemma {:induction false} BytesFirst(words: seq<seq<Byte>>)
    requires words != []
    ensures Bytes(words) == |words[0]| + 1 + Bytes(words[1..])
  {
    if |words| > 1 {
      var front := words[..|words| - 1];
      BytesFirst(front);
      assert front[1..] == words[1..][..|words| - 2];
    }
  }

  lemma BufferFits(line: seq<Byte>)
    requires |line| < ARG_MAX
    ensures |Tokens(line)| <= ARG_MAX && StackSize(Tokens(line)) < PGSIZE
  {
    TokensBytes(line);
  }

  /** `token` is word `j`, and the words from `j + 1` on follow at `save`. */
  ghost predicate Pending(b: seq<Byte>, words: seq<seq<Byte>>, j: nat, token: Option<nat>, save: nat) {
    && save < |b| && b[|b| - 1] == 0 && j <= |words|
    && (token.None? ==> j == |words|)
    && (token.Some? ==> j < |words| && token.value < |b| && CString(b, token.value) == words[j] && Tokens(CString(b, save)) == words[j + 1..])
  }

  lemma PendingMeans(b: seq<Byte>, words: seq<seq<Byte>>, j: nat, token: Option<nat>, save: nat)
    requires Pending(b, words, j, token, save)
    ensures save < |b| && b[|b| - 1] == 0 && (token.None? ==> j == |words|)
    ensures token.Some? ==> j < |words| && token.value < |b| && CString(b, token.value) == words[j] && Tokens(CString(b, save)) == words[j + 1..]
  {
  }

  /** What `strtok_r` promises, in terms of the words of the whole line. */
  lemma AfterStrTok(b: seq<Byte>, words: seq<seq<Byte>>, j: nat, token: Option<nat>, save: nat)
    requires save < |b| && b[|b| - 1] == 0 && j <= |words|
    requires if words[j..] == [] then token == None
             else token.Some? && token.value < |b| && CString(b, token.value) == words[j..][0] && Tokens(CString(b, save)) == words[j..][1..]
    ensures Pending(b, words, j, token, save)
  {
    if words[j..] != [] { assert words[j..][0] == words[j] && words[j..][1..] == words[j + 1..]; }
  }

  ghost predicate Stored(argv: seq<int>, words: seq<seq<Byte>>, j: nat) {
    j <= |words| < |argv| && forall k :: 0 <= k < j ==> argv[k] == StringAddr(words, k)
  }

  lemma StoreNone(argv: seq<int>, words: seq<seq<Byte>>)
    requires |words| < |argv|
    ensures Stored(argv, words, 0)
  {
  }

  lemma StoreOne(argv: seq<int>, words: seq<seq<Byte>>, j: nat, a: int)
    requires Stored(argv, words, j) && j < |words| && a == StringAddr(words, j)
    ensures j < |argv| && Stored(argv[j := a], words, j + 1)
  {
  }

  lemma StoreAll(argv: seq<int>, words: seq<seq<Byte>>)
    requires Stored(argv, words, |words|) && |argv| == |words| + 1
    ensures argv[|words| := 0] == Pointers(words)
  {
  }

  lemma NoStrings()
    ensures Bytes([]) == 0 && Strings([]) == []
  {
  }

  class UserStack {
    const page: array<Byte>
    var esp: int
    ghost const initial: seq<Byte>   // the page as it was mapped

    /** Below `esp` the page is as it was. */
    ghost predicate Valid()
      reads this, page
    {
      && page.Length == PGSIZE == |initial| && esp <= PHYS_BASE
      && (esp > PAGE ==> page[..esp - PAGE] == initial[..esp - PAGE])
    }

    /** Unless it has run out of the page, the stack holds the bytes `b`. */
    ghost predicate Above(b: seq<Byte>)
      reads this, page
    {
      esp > PAGE ==> Tail(page[..], esp, b)
    }

    constructor (page: array<Byte>)
      requires page.Length == PGSIZE
      ensures Valid() && esp == PHYS_BASE && this.page == page && initial == page[..] && Above([])
    {
      this.page, esp, initial := page, PHYS_BASE, page[..];
    }

    /** `*esp -= size; if (*esp > PHYS_BASE - PGSIZE) memcpy (*esp, b, size);` */
    method Push(b: seq<Byte>)
      requires Valid()
      modifies this, page
      ensures Valid() && esp == old(esp) - |b|
      ensures forall t :: old(Above(t)) ==> Above(b + t)
      ensures esp <= PAGE ==> page[..] == old(page[..])
      ensures SameAbove(old(page[..]), page[..], old(esp))
    {
      esp := esp - |b|;
      if esp > PAGE {
        forall k | 0 <= k < |b| {
          page[esp - PAGE + k] := b[k];
        }
      }
    }

    /** The first loop over the tokens, on a copy of the command line. */
    method CountArguments(copy: array<Byte>) returns (argc: nat)
      requires copy.Length > 0 && copy[copy.Length - 1] == 0
      modifies copy
      ensures var n := |Tokens(old(CString(copy[..], 0)))|; argc == if n < ARG_MAX then n else ARG_MAX
    {
      hide CString, Tokens;
      ghost var words := Tokens(CString(copy[..], 0));
      argc := 0;
      var token, save := StrTok(copy, 0);
      while token.Some? && argc < ARG_MAX
        invariant save < copy.Length && copy[copy.Length - 1] == 0 && argc <= ARG_MAX && argc <= |words|
        invariant token.None? ==> argc == |words|
        invariant token.Some? ==> argc < |words| && Tokens(CString(copy[..], save)) == words[argc + 1..]
        decreases ARG_MAX - argc
      {
        argc := argc + 1;
        token, save := StrTok(copy, save);
      }
    }

    method PushString(w: seq<Byte>, ghost words: seq<seq<Byte>>, j: nat)
      requires Valid() && j < |words| && w == words[j] && esp == PHYS_BASE - Bytes(words[..j]) && Above(Strings(words[..j]))
      modifies this, page
      ensures Valid() && esp == PHYS_BASE - Bytes(words[..j + 1]) == StringAddr(words, j) && Above(Strings(words[..j + 1]))
    {
      hide Tail;
      assert words[..j + 1][..j] == words[..j];
      Push(w + [0]);
    }

    /** The second loop: the strings, and their addresses. */
    method PushStrings(args: array<Byte>, argv: array<int>)
      requires Valid() && esp == PHYS_BASE && Above([])
      requires args != page && args.Length > 0 && args[args.Length - 1] == 0
      requires argv.Length == |Tokens(CString(args[..], 0))| + 1
      modifies this, page, args, argv
      ensures var words := Tokens(old(CString(args[..], 0)));
              && Valid() && esp == PHYS_BASE - Bytes(words) && Above(Strings(words)) && argv[..] == Pointers(words)
    {
      hide Pending, Above, Bytes, Strings, CString, Tokens, Stored;
      ghost var words := Tokens(CString(args[..], 0));
      NoStrings();
      assert words[..0] == [];
      var j := 0;
      var token, save := NextToken(args, 0, words, 0);
      StoreNone(argv[..], words);
      while token.Some?
        invariant Valid() && j <= |words| && Pending(args[..], words, j, token, save)
        invariant esp == PHYS_BASE - Bytes(words[..j]) && Above(Strings(words[..j])) && Stored(argv[..], words, j)
        decreases |words| - j
      {
        PendingMeans(args[..], words, j, token, save);
        PushString(CString(args[..], token.value), words, j);
        StoreOne(argv[..], words, j, esp);
        argv[j] := esp;
        j := j + 1;
        token, save := NextToken(args, save, words, j);
      }
      PendingMeans(args[..], words, j, token, save);
      assert words[..j] == words;
      StoreAll(argv[..], words);
      argv[j] := 0;
    }

    method NextToken(args: array<Byte>, start: nat, ghost words: seq<seq<Byte>>, ghost j: nat) returns (token: Option<nat>, save: nat)
      requires start < args.Length && args[args.Length - 1] == 0 && j <= |words| && Tokens(CString(args[..], start)) == words[j..]
      modifies args
      ensures Pending(args[..], words, j, token, save)
    {
      hide CString, Tokens, Pending;
      token, save := StrTok(args, start);
      AfterStrTok(args[..], words, j, token, save);
    }

    /** The alignment loop. */
    method Align(ghost words: seq<seq<Byte>>)
      requires Valid() && esp == PHYS_BASE - Bytes(words) && Above(Strings(words))
      modifies this, page
      ensures Valid() && esp == PHYS_BASE - RoundUp4(Bytes(words)) && Above(Zeros(Padding(words)) + Strings(words))
    {
      hide Tail, Strings;
      ghost var n := 0;
      assert Zeros(0) + Strings(words) == Strings(words);
      while esp % 4 != 0
        invariant Valid() && 0 <= n <= Padding(words) && esp == PHYS_BASE - Bytes(words) - n && Above(Zeros(n) + Strings(words))
        decreases Padding(words) - n
      {
        assert [0] + (Zeros(n) + Strings(words)) == Zeros(n + 1) + Strings(words);
        Push([0]);
        n := n + 1;
      }
    }

    /** The loop that stores argv[argc] to argv[0]. */
    method PushVector(argv: array<int>, argc: nat, ghost below: seq<Byte>)
      requires Valid() && argv.Length == argc + 1 && Above(below)
      modifies this, page
      ensures Valid() && esp == old(esp) - 4 * (argc + 1) && Above(Vector(argv[..]) + below)
    {
      hide Tail, Le;
      assert Vector([]) + below == below;
      var j := argc;
      while j >= 0
        invariant -1 <= j <= argc && Valid() && esp == old(esp) - 4 * (argc - j)
        invariant Above(Vector(argv[j + 1..]) + below)
      {
        assert argv[j..] == [argv[j]] + argv[j + 1..];
        assert Le(argv[j]) + (Vector(argv[j + 1..]) + below) == Vector(argv[j..]) + below;
        Push(Le(argv[j]));
        j := j - 1;
      }
      assert argv[0..] == argv[..];
    }

    /** The pointer to argv, argc and a return address, each as far as it is above the page boundary. */
    method PushFrame(argc: nat, ghost words: seq<seq<Byte>>)
      requires Valid() && argc == |words| && Above(Arguments(words)) && esp == PHYS_BASE - StackSize(words) + 12
      modifies this, page
      ensures Valid() && esp == PHYS_BASE - StackSize(words)
      ensures esp + 8 > PAGE ==> Tail(page[..], esp + 8, Image(words, esp))
      ensures esp + 4 > PAGE ==> Holds(page[..], esp + 4, Le(argc))
      ensures esp > PAGE ==> Holds(page[..], esp, Le(0))
      ensures PAGE - 4 <= esp <= PAGE ==> page[..4] == initial[..4]
    {
      hide Tail, Holds, Le, Arguments, StackSize, SameAbove, Strings, Bytes, Zeros;
      SizeIsWords(words);
      var argv := esp;
      Push(Le(argv));
      ghost var one, at, image := page[..], esp, Le(argv) + Arguments(words);
      Push(Le(argc));
      ghost var two := page[..];
      Push(Le(0));
      StoredFrame(one, two, page[..], at, argc, image);
      LowestWord(one, two, page[..], at);
    }

    /** Of the lowest word of the page nothing is stored if the frame ends at most a word below the page. */
    lemma LowestWord(one: seq<Byte>, two: seq<Byte>, three: seq<Byte>, at: int)
      requires |one| == |two| == |three| == |initial| == PGSIZE && at <= PHYS_BASE && at % 4 == 0
      requires at > PAGE ==> one[..at - PAGE] == initial[..at - PAGE]
      requires at - 4 > PAGE ==> two[..at - 4 - PAGE] == initial[..at - 4 - PAGE]
      requires (at - 4 <= PAGE ==> two == one) && (at - 8 <= PAGE ==> three == two)
      ensures PAGE - 4 <= at - 8 <= PAGE ==> three[..4] == initial[..4]
    {
    }

    /** What is stored of argc and the return address, below `at`, leaves what is above. */
    lemma StoredFrame(one: seq<Byte>, two: seq<Byte>, three: seq<Byte>, at: int, argc: nat, image: seq<Byte>)
      requires SameAbove(one, two, at) && SameAbove(two, three, at - 4)
      requires at > PAGE ==> Tail(one, at, image)
      requires at - 4 > PAGE ==> Tail(two, at - 4, Le(argc) + image)
      requires at - 8 > PAGE ==> Tail(three, at - 8, Le(0) + (Le(argc) + image))
      ensures at > PAGE ==> Tail(three, at, image)
      ensures at - 4 > PAGE ==> Holds(three, at - 4, Le(argc))
      ensures at - 8 > PAGE ==> Holds(three, at - 8, Le(0))
    {
      hide Tail, Holds, Le, SameAbove;
      if at > PAGE { KeptAbove(one, two, at, at, image); }
      if at - 4 > PAGE { Peel(two, at - 4, Le(argc), image); }
      KeptAbove(two, three, at - 4, at - 4, Le(argc));
      KeptAbove(two, three, at - 4, at, image);
      if at - 8 > PAGE { Peel(three, at - 8, Le(0), Le(argc) + image); }
    }

    /** `strlcpy` into a buffer of the string's own size. */
    method CopyString(args: array<Byte>) returns (copy: array<Byte>)
      requires args.Length > 0 && args[args.Length - 1] == 0
      ensures fresh(copy) && copy.Length > 0 && copy[copy.Length - 1] == 0
      ensures CString(copy[..], 0) == CString(args[..], 0)
    {
      var s := CString(args[..], 0) + [0];
      copy := new Byte[|s|](i requires 0 <= i < |s| => s[i]);
      assert copy[..] == s;
      CStringIs(copy[..], 0, s[..|s| - 1]);
    }

    /**
     `setup_stack` from the mapped page on.  The new program finds exactly the words
     of the command line if and only if the stack takes at most the page, or four
     bytes more and argc happens to be there already, which a zeroed page excludes.
     The return address is stored only if the stack is smaller than the page.
     */
    method SetupStack(args: array<Byte>)
      requires Valid() && esp == PHYS_BASE && Above([])
      requires args != page && args.Length > 0 && args[args.Length - 1] == 0
      requires |Tokens(CString(args[..], 0))| <= ARG_MAX
      modifies this, page, args
      ensures var words := Tokens(old(CString(args[..], 0)));
              && esp == PHYS_BASE - StackSize(words) && esp % 4 == 0
              && (StackSize(words) <= PGSIZE ==> Layout(page[..], words, esp))
              && (StackSize(words) <= PGSIZE ==> Word(page[..], Word(page[..], esp + 8) + 4 * |words|) == 0)
              && (words != [] ==> (Decode(page[..], esp) == words <==> Fits(words, initial)))
              && (StackSize(words) < PGSIZE ==> Holds(page[..], esp, Le(0)))
              && (StackSize(words) == PGSIZE ==> Word(page[..], esp) == Word(initial, esp))
    {
      hide CString, Tokens, Tail, Layout, ArgsLaid, Decode, Word, Image, Le, Bytes, StringAddr, Strings, Vector, Zeros;
      ghost var line := CString(args[..], 0);
      ghost var words := Tokens(line);
      var copy := CopyString(args);
      var argc := CountArguments(copy);
      var argv := new int[argc + 1];
      PushStrings(args, argv);
      Align(words);
      PushVector(argv, argc, Zeros(Padding(words)) + Strings(words));
      PushFrame(argc, words);
      TokensClean(line);
      StackRead(page[..], words, esp, initial);
    }
  }

  /** Whether the arguments of `words` come out right on a page that held `initial`. */
  predicate Fits(words: seq<seq<Byte>>, initial: seq<Byte>) {
    StackSize(words) <= PGSIZE || (StackSize(words) == PGSIZE + 4 && Word(initial, PAGE) == |words|)
  }

  /** What reading the stack gives, by how far it was stored. */
  lemma StackRead(m: seq<Byte>, words: seq<seq<Byte>>, esp: int, initial: seq<Byte>)
    requires |m| == |initial| == PGSIZE && esp == PHYS_BASE - StackSize(words)
    requires forall i :: 0 <= i < |words| ==> 0 !in words[i]
    requires esp + 8 > PAGE ==> Tail(m, esp + 8, Image(words, esp))
    requires esp + 4 > PAGE ==> Holds(m, esp + 4, Le(|words|))
    requires PAGE - 4 <= esp <= PAGE ==> m[..4] == initial[..4]
    ensures esp % 4 == 0
    ensures StackSize(words) <= PGSIZE ==> Layout(m, words, esp) && Word(m, Word(m, esp + 8) + 4 * |words|) == 0
    ensures words != [] ==> (Decode(m, esp) == words <==> Fits(words, initial))
    ensures StackSize(words) == PGSIZE ==> Word(m, esp) == Word(initial, esp)
  {
    hide Tail, Image, Holds, Le, Decode, Word, ArgsLaid;
    SizeIsWords(words);
    if esp + 8 > PAGE {
      ImageIsLaid(m, words, esp);
      ArgsDecode(m, words, esp);
      if esp + 4 > PAGE {
        ArgsFixed(m, words, esp);
        WordRoundTrip(m, esp + 4, |words|);
      }
    } else {
      NoWord(m, esp + 4);
      DecodeLength(m, esp);
    }
    if PAGE - 4 <= esp <= PAGE { SameWord(m, initial); }
  }

  lemma NoWord(m: seq<Byte>, a: int)
    requires a < PAGE
    ensures Word(m, a) == 0
  {
  }

  lemma SameWord(m: seq<Byte>, m': seq<Byte>)
    requires |m| == |m'| == PGSIZE && m[..4] == m'[..4]
    ensures Word(m, PAGE) == Word(m', PAGE)
  {
    assert m[0] == m[..4][0] && m[1] == m[..4][1] && m[2] == m[..4][2] && m[3] == m[..4][3];
    assert m'[0] == m'[..4][0] && m'[1] == m'[..4][1] && m'[2] == m'[..4][2] && m'[3] == m'[..4][3];
  }

  /** On a zeroed page the condition is the size alone. */
  lemma FitsZeroed(words: seq<seq<Byte>>)
    requires words != []
    ensures Fits(words, Zeros(PGSIZE)) <==> StackSize(words) <= PGSIZE
  {
  }

  /** A command line of one long word: 4075 letters fill the page, 4076 are too many. */
  lemma {:induction false} OneWord(n: nat)
    ensures var line := Letters(n);
            WordLength(line) == n && (n > 0 ==> Tokens(line) == [line] && StackSize([line]) == RoundUp4(n + 1) + 20)
  {
    var line := Letters(n);
    if n > 0 {
      OneWord(n - 1);
      assert line[1..] == Letters(n - 1);
      assert line[..n] == line && line[n..] == [];
      var words: seq<seq<Byte>> := [line];
      assert words[..0] == [];
      assert Bytes(words) == n + 1;
    }
  }

  function Letters(n: nat): (line: seq<Byte>)
    ensures |line| == n
  {
    seq(n, _ => 97)
  }

  lemma LongLines()
    ensures Tokens(Letters(4075)) == [Letters(4075)] && StackSize([Letters(4075)]) == PGSIZE
    ensures Tokens(Letters(4076)) == [Letters(4076)] && StackSize([Letters(4076)]) == PGSIZE + 4
    ensures !Fits(Tokens(Letters(4076)), Zeros(PGSIZE))
  {
    OneWord(4075);
    OneWord(4076);
    FitsZeroed([Letters(4076)]);
  }

  // "/bin/ls", "-l", "foo", "bar".
  const LS: seq<Byte> := [47, 98, 105, 110, 47, 108, 115]
  const MINUS_L: seq<Byte> := [45, 108]
  const FOO: seq<Byte> := [102, 111, 111]
  const BAR: seq<Byte> := [98, 97, 114]

  lemma ExampleWords()
    ensures Tokens(LS + [SPACE] + (MINUS_L + [SPACE] + (FOO + [SPACE] + BAR))) == [LS, MINUS_L, FOO, BAR]
  {
    hide Tokens, WordLength;
    TokensSplit(LS, MINUS_L + [SPACE] + (FOO + [SPACE] + BAR));
    TokensSplit(MINUS_L, FOO + [SPACE] + BAR);
    TokensSplit(FOO, BAR);
    TokensSplit(BAR, []);
  }

  /** For `/bin/ls -l foo bar` the stack begins at 0xbfffffcc, and the strings lie where they should. */
  lemma ExampleStack()
    ensures var words := [LS, MINUS_L, FOO, BAR];
            && PHYS_BASE - StackSize(words) == 0xbfff_ffcc
            && StringAddr(words, 0) == 0xbfff_fff8 && StringAddr(words, 1) == 0xbfff_fff5
            && StringAddr(words, 2) == 0xbfff_fff1 && StringAddr(words, 3) == 0xbfff_ffed
    ensures Le(0xbfff_ffed) == [0xed, 0xff, 0xff, 0xbf]
  {
    hide Bytes, RoundUp4;
    NoBytes();
    ExampleBytes(LS, MINUS_L, FOO, BAR);
  }

  lemma ExampleBytes(a: seq<Byte>, b: seq<Byte>, c: seq<Byte>, d: seq<Byte>)
    ensures var w := [a, b, c, d];
            && Bytes(w[..1]) == Bytes([]) + |a| + 1 && Bytes(w[..2]) == Bytes(w[..1]) + |b| + 1
            && Bytes(w[..3]) == Bytes(w[..2]) + |c| + 1 && Bytes(w) == Bytes(w[..4]) == Bytes(w[..3]) + |d| + 1
  {
    hide Bytes;
    var w := [a, b, c, d];
    BytesOf([], a);
    BytesOf(w[..1], b);
    BytesOf(w[..2], c);
    BytesOf(w[..3], d);
    assert w[..1] == [] + [a] && w[..2] == w[..1] + [b] && w[..3] == w[..2] + [c] && w[..4] == w[..3] + [d] == w;
  }

  lemma NoBytes()
    ensures Bytes([]) == 0 && RoundUp4(19) == 20
  {
  }

  lemma BytesOf(words: seq<seq<Byte>>, word: seq<Byte>)
    ensures Bytes(words + [word]) == Bytes(words) + |word| + 1
  {
    assert (words + [word])[..|words|] == words;
  }
}
