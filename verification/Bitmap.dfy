/** Arrays of bits in bytes, os161/kern/lib/bitmap.c. */
module Bitmap {
  import opened SfsFormat

  // ---------------------------------------------------------------- the bits of a number

  predicate HasBit(b: nat, k: nat) {
    if k == 0 then b % 2 == 1 else HasBit(b / 2, k - 1)
  }

  /** The same, for use under quantifiers. */
  predicate Bit(b: nat, k: nat) {
    HasBit(b, k)
  }

  /** `b | (1 << k)` */
  function SetBit(b: nat, k: nat): nat {
    if k == 0 then b - b % 2 + 1 else b % 2 + 2 * SetBit(b / 2, k - 1)
  }

  /** `b & ~(1 << k)` */
  function ClearBit(b: nat, k: nat): nat {
    if k == 0 then b - b % 2 else b % 2 + 2 * ClearBit(b / 2, k - 1)
  }

  function Pow2(n: nat): nat {
    if n == 0 then 1 else 2 * Pow2(n - 1)
  }

  lemma {:induction false} SetBitIs(b: nat, k: nat, j: nat)
    ensures HasBit(SetBit(b, k), j) <==> j == k || HasBit(b, j)
  {
    if k > 0 && j > 0 {
      SetBitIs(b / 2, k - 1, j - 1);
    }
  }

  lemma {:induction false} ClearBitIs(b: nat, k: nat, j: nat)
    ensures HasBit(ClearBit(b, k), j) <==> j != k && HasBit(b, j)
  {
    if k > 0 && j > 0 {
      ClearBitIs(b / 2, k - 1, j - 1);
    }
  }

  lemma {:induction false} BitBounds(b: nat, k: nat, n: nat)
    requires k < n && b < Pow2(n)
    ensures SetBit(b, k) < Pow2(n) && ClearBit(b, k) < Pow2(n)
  {
    HalfBound(b, Pow2(n - 1));
    if k > 0 {
      BitBounds(b / 2, k - 1, n - 1);
    }
  }

  lemma HalfBound(b: nat, p: nat)
    requires b < 2 * p
    ensures b / 2 < p && b - b % 2 + 1 < 2 * p && b % 2 <= 1
  {
  }

  lemma {:induction false} AllBits(b: nat, n: nat)
    requires b < Pow2(n)
    ensures b == Pow2(n) - 1 <==> forall k :: 0 <= k < n ==> Bit(b, k)
  {
    if n > 0 {
      AllBits(b / 2, n - 1);
      assert b == Pow2(n) - 1 <==> b / 2 == Pow2(n - 1) - 1 && b % 2 == 1;
      forall k | 0 <= k < n
        ensures Bit(b, k) <==> if k == 0 then b % 2 == 1 else Bit(b / 2, k - 1)
      {
      }
      if forall k :: 0 <= k < n ==> Bit(b, k) {
        assert Bit(b, 0);
        forall k | 0 <= k < n - 1
          ensures Bit(b / 2, k)
        {
          assert Bit(b, k + 1);
        }
      }
    }
  }

  lemma {:induction false} ZeroBits(k: nat)
    ensures !HasBit(0, k)
  {
    if k > 0 {
      ZeroBits(k - 1);
    }
  }

  lemma ByteBits(b: Byte, k: nat)
    requires k < 8
    ensures SetBit(b, k) < 256 && ClearBit(b, k) < 256
    ensures b == 255 <==> forall j :: 0 <= j < 8 ==> Bit(b, j)
  {
    assert Pow2(8) == 256;
    BitBounds(b, k, 8);
    AllBits(b, 8);
  }

  // ---------------------------------------------------------------- bits of a byte array

  predicate BitAt(v: seq<Byte>, i: nat)
    requires i < 8 * |v|
  {
    Bit(v[i / 8], i % 8)
  }

  function Bits(v: seq<Byte>): (r: seq<bool>)
    ensures |r| == 8 * |v| && forall i :: 0 <= i < 8 * |v| ==> r[i] == BitAt(v, i)
  {
    seq(8 * |v|, i requires 0 <= i < 8 * |v| => BitAt(v, i))
  }

  lemma SetIn(v: seq<Byte>, i: nat)
    requires i < 8 * |v|
    ensures SetBit(v[i / 8], i % 8) < 256
    ensures Bits(v[i / 8 := SetBit(v[i / 8], i % 8)]) == Bits(v)[i := true]
  {
    ByteBits(v[i / 8], i % 8);
    var w := v[i / 8 := SetBit(v[i / 8], i % 8)];
    forall j | 0 <= j < 8 * |v|
      ensures BitAt(w, j) == if j == i then true else BitAt(v, j)
    {
      if j / 8 == i / 8 {
        SetBitIs(v[i / 8], i % 8, j % 8);
      }
    }
  }

  lemma ClearIn(v: seq<Byte>, i: nat)
    requires i < 8 * |v|
    ensures ClearBit(v[i / 8], i % 8) < 256
    ensures Bits(v[i / 8 := ClearBit(v[i / 8], i % 8)]) == Bits(v)[i := false]
  {
    ByteBits(v[i / 8], i % 8);
    var w := v[i / 8 := ClearBit(v[i / 8], i % 8)];
    forall j | 0 <= j < 8 * |v|
      ensures BitAt(w, j) == if j == i then false else BitAt(v, j)
    {
      if j / 8 == i / 8 {
        ClearBitIs(v[i / 8], i % 8, j % 8);
      }
    }
  }

  // ---------------------------------------------------------------- the bitmap

  class BitArray {
    const nbits: nat
    const v: array<Byte>

    /** The bits past the end are marked in use, so that none of them is ever handed out. */
    ghost predicate Valid()
      reads v
    {
      && v.Length == (nbits + 7) / 8
      && forall i :: nbits <= i < 8 * v.Length ==> BitAt(v[..], i)
    }

    ghost function Set(): (r: seq<bool>)
      reads v
    {
      Bits(v[..])
    }

    constructor (n: nat)
      ensures Valid() && fresh(v) && nbits == n && v.Length == (n + 7) / 8
      ensures forall i :: 0 <= i < n ==> !Set()[i]
    {
      nbits := n;
      var words := (n + 7) / 8;
      v := new Byte[words](i => 0);
      new;
      forall i | 0 <= i < 8 * words
        ensures !BitAt(v[..], i)
      {
        ZeroBits(i % 8);
      }
      if n / 8 < words {
        var ix := words - 1;
        var j := n - ix * 8;
        while j < 8
          invariant n - ix * 8 <= j <= 8
          invariant forall i :: 0 <= i < 8 * words ==> (BitAt(v[..], i) <==> n <= i < ix * 8 + j)
        {
          SetIn(v[..], ix * 8 + j);
          assert (ix * 8 + j) / 8 == ix && (ix * 8 + j) % 8 == j;
          v[ix] := SetBit(v[ix], j);
          j := j + 1;
        }
      }
    }

    /** The least index that is not set, which is then set; fails exactly when all are set. */
    method Alloc() returns (ok: bool, index: nat)
      requires Valid()
      modifies v
      ensures Valid()
      ensures ok ==> index < nbits && !old(Set())[index] && (forall i :: 0 <= i < index ==> old(Set())[i])
      ensures ok ==> Set() == old(Set())[index := true]
      ensures !ok ==> v[..] == old(v[..]) && forall i :: 0 <= i < |Set()| ==> Set()[i]
    {
      var ix := 0;
      while ix < (nbits + 7) / 8
        invariant 0 <= ix <= v.Length && v[..] == old(v[..])
        invariant forall i :: 0 <= i < 8 * ix ==> BitAt(v[..], i)
      {
        ByteBits(v[ix], 0);
        if v[ix] != 255 {
          var offset := 0;
          while Bit(v[ix], offset)
            invariant 0 <= offset < 8 && v[..] == old(v[..])
            invariant forall k :: 0 <= k < offset ==> Bit(v[ix], k)
            decreases 8 - offset
          {
            offset := offset + 1;
          }
          index := 8 * ix + offset;
          assert index / 8 == ix && index % 8 == offset;
          assert !BitAt(v[..], index);
          forall i | 8 * ix <= i < index
            ensures BitAt(v[..], i)
          {
            assert i / 8 == ix && i % 8 < offset;
          }
          SetIn(v[..], index);
          v[ix] := SetBit(v[ix], offset);
          assert v[..] == old(v[..])[index / 8 := SetBit(old(v[..])[index / 8], index % 8)];
          assert Set() == old(Set())[index := true];
          return true, index;
        }
        forall i | 8 * ix <= i < 8 * (ix + 1)
          ensures BitAt(v[..], i)
        {
          var k := i % 8;
          assert i / 8 == ix && 0 <= k < 8;
          assert Bit(v[ix], k);
        }
        ix := ix + 1;
      }
      return false, 0;
    }

    method Mark(index: nat)
      requires Valid() && index < nbits && !Set()[index]
      modifies v
      ensures Valid() && Set() == old(Set())[index := true]
    {
      SetIn(v[..], index);
      v[index / 8] := SetBit(v[index / 8], index % 8);
      assert v[..] == old(v[..])[index / 8 := SetBit(old(v[..])[index / 8], index % 8)];
      assert Set() == old(Set())[index := true];
    }

    method Unmark(index: nat)
      requires Valid() && index < nbits && Set()[index]
      modifies v
      ensures Valid() && Set() == old(Set())[index := false]
    {
      ClearIn(v[..], index);
      v[index / 8] := ClearBit(v[index / 8], index % 8);
      assert v[..] == old(v[..])[index / 8 := ClearBit(old(v[..])[index / 8], index % 8)];
      assert Set() == old(Set())[index := false];
    }

    method IsSet(index: nat) returns (r: bool)
      requires Valid() && index < nbits
      ensures r == Set()[index]
    {
      r := Bit(v[index / 8], index % 8);
    }
  }
}
