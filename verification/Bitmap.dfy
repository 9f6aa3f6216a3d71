/** A bitmap over a byte buffer, seen as the set of its one bits. */
module Bitmaps {

  predicate BitOf(byte: bv8, k: nat)
    requires k < 8
  {
    (byte >> k) & 1 == 1
  }

  /** Setting one bit of a byte leaves the other seven alone. */
  lemma SetBitOf(byte: bv8, k: nat, j: nat)
    requires k < 8 && j < 8
    ensures BitOf(byte | (1 << k), j) == (j == k || BitOf(byte, j))
  {
    ShiftCases(k);
    ShiftCases(j);
  }

  lemma ClearBitOf(byte: bv8, k: nat, j: nat)
    requires k < 8 && j < 8
    ensures BitOf(byte & !(1 << k), j) == (j != k && BitOf(byte, j))
  {
    ShiftCases(k);
    ShiftCases(j);
  }

  lemma TestBitOf(byte: bv8, k: nat)
    requires k < 8
    ensures (byte & (1 << k) != 0) == BitOf(byte, k)
    ensures (byte >> k) & 1 == 0 || (byte >> k) & 1 == 1
  {
    ShiftCases(k);
  }

  lemma ShiftCases(k: nat)
    requires k < 8
    ensures k == 0 || k == 1 || k == 2 || k == 3 || k == 4 || k == 5 || k == 6 || k == 7
  {
  }

  /** The positions of the one bits of a buffer. */
  ghost function OnesOf(bytes: seq<bv8>): set<nat> {
    set i: nat | i < 8 * |bytes| && BitOf(bytes[i / 8], i % 8)
  }

  lemma OnesAfterSet(bytes: seq<bv8>, i: nat)
    requires i / 8 < |bytes|
    ensures OnesOf(bytes[i / 8 := bytes[i / 8] | (1 << (i % 8))]) == OnesOf(bytes) + {i}
  {
    hide BitOf;
    var n := bytes[i / 8 := bytes[i / 8] | (1 << (i % 8))];
    forall j: nat | j < 8 * |bytes|
      ensures BitOf(n[j / 8], j % 8) == (j == i || BitOf(bytes[j / 8], j % 8))
    {
      SetBitOf(bytes[i / 8], i % 8, j % 8);
    }
  }

  lemma OnesAfterClear(bytes: seq<bv8>, i: nat)
    requires i / 8 < |bytes|
    ensures OnesOf(bytes[i / 8 := bytes[i / 8] & !(1 << (i % 8))]) == OnesOf(bytes) - {i}
  {
    hide BitOf;
    var n := bytes[i / 8 := bytes[i / 8] & !(1 << (i % 8))];
    forall j: nat | j < 8 * |bytes|
      ensures BitOf(n[j / 8], j % 8) == (j != i && BitOf(bytes[j / 8], j % 8))
    {
      ClearBitOf(bytes[i / 8], i % 8, j % 8);
    }
  }

  class Bitmap {
    const base: array<bv8>

    ghost function Ones(): set<nat>
      reads this, base
    {
      OnesOf(base[..])
    }

    /** bitmap.c, bmp_init: a buffer of enough bytes, all zero. */
    constructor (sizeBits: nat)
      ensures fresh(base) && sizeBits <= 8 * base.Length < sizeBits + 8 && Ones() == {}
    {
      base := new bv8[(sizeBits + 7) / 8](_ => 0);
      new;
      forall k: nat | k < 8
        ensures !BitOf(0, k)
      {
        ShiftCases(k);
      }
    }

    method GetBit(index: nat) returns (bit: bv8)
      ensures bit == if index in Ones() then 1 else 0
    {
      var byteIndex := index / 8;
      if byteIndex >= base.Length {
        return 0;
      }
      TestBitOf(base[byteIndex], index % 8);
      bit := (base[byteIndex] >> (index % 8)) & 1;
    }

    method Raise(index: nat)
      requires index / 8 < base.Length
      modifies base
      ensures Ones() == old(Ones()) + {index}
    {
      ghost var was := base[..];
      OnesAfterSet(was, index);
      base[index / 8] := base[index / 8] | (1 << (index % 8));
      assert base[..] == was[index / 8 := was[index / 8] | (1 << (index % 8))];
    }

    method Lower(index: nat)
      requires index / 8 < base.Length
      modifies base
      ensures Ones() == old(Ones()) - {index}
    {
      ghost var was := base[..];
      OnesAfterClear(was, index);
      base[index / 8] := base[index / 8] & !(1 << (index % 8));
      assert base[..] == was[index / 8 := was[index / 8] & !(1 << (index % 8))];
    }

    method SetBit(index: nat, value: bv8) returns (ok: bv8)
      modifies base
      ensures ok == if index < 8 * base.Length then 1 else 0
      ensures Ones() == if index >= 8 * base.Length then old(Ones())
                        else if value > 0 then old(Ones()) + {index} else old(Ones()) - {index}
    {
      if index / 8 >= base.Length {
        return 0;
      }
      if value > 0 {
        Raise(index);
      } else {
        Lower(index);
      }
      ok := 1;
    }

    method ToggleBit(index: nat) returns (bit: bv8)
      modifies base
      ensures index >= 8 * base.Length ==> Ones() == old(Ones()) && bit == 0
      ensures index < 8 * base.Length ==>
              Ones() == if index in old(Ones()) then old(Ones()) - {index} else old(Ones()) + {index}
      ensures index < 8 * base.Length ==> bit == if index in Ones() then 1 else 0
    {
      if index / 8 >= base.Length {
        return 0;
      }
      TestBitOf(base[index / 8], index % 8);
      if base[index / 8] & (1 << (index % 8)) != 0 {
        Lower(index);
        bit := 0;
      } else {
        Raise(index);
        bit := 1;
      }
    }
  }
}
