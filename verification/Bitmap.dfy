/**
 The packed bitmap (lib/kernel/bitmap.c): an array of 32-bit words that stands
 for an array of bits, `View()`.
 */
module Bitmap {
  import opened Words

  const ELEM_BITS: nat := 32

  function ElemIdx(bit: nat): nat {
    bit / ELEM_BITS
  }

  function BitMask(bit: nat): nat {
    Pow2(bit % ELEM_BITS)
  }

  function ElemCnt(bits: nat): nat {
    (bits + ELEM_BITS - 1) / ELEM_BITS
  }

  /** The bit numbered `bit` of the bitmap, in the word that holds it. */
  predicate BitIn(word: nat, bit: nat) {
    Bit(word, bit % ELEM_BITS)
  }

  /** Setting, clearing and toggling one bit of a word leaves its other bits alone. */
  lemma OneBit(word: nat, k: nat, j: nat)
    ensures BitIn(Or(word, BitMask(k)), j) <==> j % ELEM_BITS == k % ELEM_BITS || BitIn(word, j)
    ensures BitIn(AndNot(word, BitMask(k)), j) <==> j % ELEM_BITS != k % ELEM_BITS && BitIn(word, j)
    ensures BitIn(Xor(word, BitMask(k)), j) <==> if j % ELEM_BITS == k % ELEM_BITS then !BitIn(word, j) else BitIn(word, j)
  {
    hide Bit, Or, AndNot, Xor, Pow2;
    Pow2Bit(k % ELEM_BITS, j % ELEM_BITS);
    OrBit(word, BitMask(k), j % ELEM_BITS);
    AndNotBit(word, BitMask(k), j % ELEM_BITS);
    XorBit(word, BitMask(k), j % ELEM_BITS);
  }

  lemma WordsStayWords(word: nat, k: nat)
    requires word < Pow2(ELEM_BITS)
    ensures Or(word, BitMask(k)) < Pow2(ELEM_BITS)
    ensures AndNot(word, BitMask(k)) < Pow2(ELEM_BITS)
    ensures Xor(word, BitMask(k)) < Pow2(ELEM_BITS)
  {
    hide Or, AndNot, Xor, Pow2;
    Pow2Strict(k % ELEM_BITS, ELEM_BITS);
    OrBound(word, BitMask(k), ELEM_BITS);
    AndNotBound(word, BitMask(k));
    XorBound(word, BitMask(k), ELEM_BITS);
  }

  /** All `cnt` bits from `i` on equal `value`. */
  ghost predicate Group(v: seq<bool>, i: nat, cnt: nat, value: bool) {
    i + cnt <= |v| && forall k :: i <= k < i + cnt ==> v[k] == value
  }

  function Filled(v: seq<bool>, i: nat, cnt: nat, value: bool): (r: seq<bool>)
    requires i + cnt <= |v|
    ensures |r| == |v|
    ensures forall k :: 0 <= k < |v| ==> r[k] == if i <= k < i + cnt then value else v[k]
  {
    v[..i] + seq(cnt, _ => value) + v[i + cnt..]
  }

  class Bitmap {
    const bitCnt: nat
    const bits: array<nat>

    ghost predicate Valid()
      reads bits
    {
      && bits.Length == ElemCnt(bitCnt)
      && forall i :: 0 <= i < bits.Length ==> bits[i] < Pow2(ELEM_BITS)
    }

    ghost function View(): (v: seq<bool>)
      requires Valid()
      reads bits
      ensures |v| == bitCnt
    {
      seq(bitCnt, i requires 0 <= i < bitCnt reads bits => BitIn(bits[ElemIdx(i)], i))
    }

    /** `bitmap_create`: all bits false. */
    constructor (bitCnt: nat)
      ensures Valid() && fresh(bits) && this.bitCnt == bitCnt
      ensures forall i :: 0 <= i < bitCnt ==> !View()[i]
    {
      this.bitCnt := bitCnt;
      bits := new nat[ElemCnt(bitCnt)](_ => 0);
      new;
      forall i | 0 <= i < bitCnt ensures !View()[i] {
        ZeroBits(i % ELEM_BITS);
      }
    }

    /** `bitmap_mark`. */
    method Mark(bit: nat)
      requires Valid() && bit < bitCnt
      modifies bits
      ensures Valid()
      ensures View() == old(View())[bit := true]
    {
      hide BitIn, BitMask, ElemIdx, Or, AndNot, Xor, Pow2;
      WordOf(bit, bitCnt);
      WordsStayWords(bits[ElemIdx(bit)], bit);
      var idx := ElemIdx(bit);
      bits[idx] := Or(bits[idx], BitMask(bit));
      forall j | 0 <= j < bitCnt ensures View()[j] == old(View())[bit := true][j] {
        WordOf(j, bitCnt);
        OneBit(old(bits[idx]), bit, j);
        SameWord(bit, j);
      }
    }

    /** `bitmap_reset`. */
    method Reset(bit: nat)
      requires Valid() && bit < bitCnt
      modifies bits
      ensures Valid()
      ensures View() == old(View())[bit := false]
    {
      hide BitIn, BitMask, ElemIdx, Or, AndNot, Xor, Pow2;
      WordOf(bit, bitCnt);
      WordsStayWords(bits[ElemIdx(bit)], bit);
      var idx := ElemIdx(bit);
      bits[idx] := AndNot(bits[idx], BitMask(bit));
      forall j | 0 <= j < bitCnt ensures View()[j] == old(View())[bit := false][j] {
        WordOf(j, bitCnt);
        OneBit(old(bits[idx]), bit, j);
        SameWord(bit, j);
      }
    }

    /** `bitmap_flip`. */
    method Flip(bit: nat)
      requires Valid() && bit < bitCnt
      modifies bits
      ensures Valid()
      ensures View() == old(View())[bit := !old(View())[bit]]
    {
      hide BitIn, BitMask, ElemIdx, Or, AndNot, Xor, Pow2;
      WordOf(bit, bitCnt);
      WordsStayWords(bits[ElemIdx(bit)], bit);
      var idx := ElemIdx(bit);
      bits[idx] := Xor(bits[idx], BitMask(bit));
      forall j | 0 <= j < bitCnt ensures View()[j] == old(View())[bit := !old(View())[bit]][j] {
        WordOf(j, bitCnt);
        OneBit(old(bits[idx]), bit, j);
        SameWord(bit, j);
      }
    }

    /** `bitmap_test`. */
    method Test(bit: nat) returns (b: bool)
      requires Valid() && bit < bitCnt
      ensures b == View()[bit]
    {
      MaskTest(bits[ElemIdx(bit)], bit % ELEM_BITS);
      b := And(bits[ElemIdx(bit)], BitMask(bit)) != 0;
    }

    /** `bitmap_set_multiple`. */
    method SetMultiple(start: nat, cnt: nat, value: bool)
      requires Valid() && start + cnt <= bitCnt
      modifies bits
      ensures Valid()
      ensures View() == Filled(old(View()), start, cnt, value)
    {
      for i := 0 to cnt
        invariant Valid() && View() == Filled(old(View()), start, i, value)
      {
        if value {
          Mark(start + i);
        } else {
          Reset(start + i);
        }
      }
    }

    /** `bitmap_contains`. */
    method Contains(start: nat, cnt: nat, value: bool) returns (found: bool)
      requires Valid() && start + cnt <= bitCnt
      ensures found <==> !Group(View(), start, cnt, !value)
    {
      for i := 0 to cnt
        invariant forall k :: start <= k < start + i ==> View()[k] == !value
      {
        var b := Test(start + i);
        if b == value {
          return true;
        }
      }
      return false;
    }

    /** `bitmap_scan`: the first group, or -1. */
    method Scan(start: nat, cnt: nat, value: bool) returns (idx: int)
      requires Valid() && start <= bitCnt
      ensures idx >= 0 ==> start <= idx && Group(View(), idx, cnt, value)
      ensures idx >= 0 ==> forall i :: start <= i < idx ==> !Group(View(), i, cnt, value)
      ensures idx < 0 ==> forall i :: start <= i ==> !Group(View(), i, cnt, value)
    {
      if cnt <= bitCnt {
        var last := bitCnt - cnt;
        var i := start;
        while i <= last
          invariant start <= i
          invariant forall k :: start <= k < i ==> !Group(View(), k, cnt, value)
        {
          var other := Contains(i, cnt, !value);
          if !other {
            return i;
          }
          i := i + 1;
        }
      }
      return -1;
    }

    /** `bitmap_scan_and_flip`. */
    method ScanAndFlip(start: nat, cnt: nat, value: bool) returns (idx: int)
      requires Valid() && start <= bitCnt
      modifies bits
      ensures Valid()
      ensures idx >= 0 ==> start <= idx && Group(old(View()), idx, cnt, value)
      ensures idx >= 0 ==> forall i :: start <= i < idx ==> !Group(old(View()), i, cnt, value)
      ensures idx >= 0 ==> View() == Filled(old(View()), idx, cnt, !value)
      ensures idx < 0 ==> View() == old(View()) && forall i :: start <= i ==> !Group(old(View()), i, cnt, value)
    {
      idx := Scan(start, cnt, value);
      if idx >= 0 {
        SetMultiple(idx, cnt, !value);
      }
    }
  }

  lemma WordOf(bit: nat, bitCnt: nat)
    requires bit < bitCnt
    ensures ElemIdx(bit) < ElemCnt(bitCnt)
  {
  }

  lemma SameWord(i: nat, j: nat)
    ensures i == j <==> ElemIdx(i) == ElemIdx(j) && i % ELEM_BITS == j % ELEM_BITS
  {
  }
}
