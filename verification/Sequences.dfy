/** Sizes of the machine, bytes, and what several parts of the kernel do with sequences of them. */
module Sequences {
  const PGSIZE: nat := 4096
  const SECTOR_SIZE: nat := 512
  const PHYS_BASE: nat := 0xC000_0000

  type Byte = b: int | 0 <= b < 256

  datatype Option<T> = None | Some(value: T)

  function Zeros(n: nat): (z: seq<Byte>)
    ensures |z| == n && forall i :: 0 <= i < n ==> z[i] == 0
  {
    seq(n, _ => 0)
  }

  /** `b` with `d` written over it from position `ofs` on. */
  function Spliced<T>(b: seq<T>, ofs: nat, d: seq<T>): (r: seq<T>)
    requires ofs + |d| <= |b|
    ensures |r| == |b|
    ensures forall k :: 0 <= k < |b| ==> r[k] == if ofs <= k < ofs + |d| then d[k - ofs] else b[k]
  {
    b[..ofs] + d + b[ofs + |d|..]
  }

  ghost predicate NoDup<T>(s: seq<T>) {
    forall i, j :: 0 <= i < j < |s| ==> s[i] != s[j]
  }

  /** The C string at position `i`: the bytes before the next NUL. */
  function CString(b: seq<Byte>, i: nat): (s: seq<Byte>)
    requires i <= |b|
    ensures i + |s| <= |b| && s == b[i..i + |s|] && 0 !in s
    ensures i + |s| == |b| || b[i + |s|] == 0
    decreases |b| - i
  {
    if i == |b| || b[i] == 0 then [] else [b[i]] + CString(b, i + 1)
  }

  /** How to recognise it. */
  lemma {:induction false} CStringIs(b: seq<Byte>, i: nat, s: seq<Byte>)
    requires i + |s| < |b| && b[i..i + |s|] == s && 0 !in s && b[i + |s|] == 0
    ensures CString(b, i) == s
    decreases |s|
  {
    if s != [] {
      assert b[i] == s[0] && b[i] in s;
      CStringIs(b, i + 1, s[1..]);
    }
  }
}
