/** Small unsigned bit sets, as the source builds them with `x |= 1 << i`.
    A set is a natural number; `PackBits(bs)` sets bit `i` exactly when `bs[i]` holds. */
module Bits {

  function Pow2(n: nat): (r: nat)
    ensures r >= 1
  {
    if n == 0 then 1 else 2 * Pow2(n - 1)
  }

  /** Bit `j` of `x` (`x >> j & 1 == 1`). */
  predicate Bit(x: nat, j: nat)
  {
    if j == 0 then x % 2 == 1 else Bit(x / 2, j - 1)
  }

  /** The number whose bit `i` is `bs[i]`; the loop that ORs in `1 << i` for every
      `i` whose condition holds computes `PackBits` of the conditions. */
  function PackBits(bs: seq<bool>): nat
  {
    if bs == [] then 0
    else PackBits(bs[..|bs| - 1]) + (if bs[|bs| - 1] then Pow2(|bs| - 1) else 0)
  }

  /** A number below `2^i` has bit `i` clear. */
  lemma {:induction false} BitBelow(x: nat, i: nat)
    requires x < Pow2(i)
    ensures !Bit(x, i)
  {
    if i > 0 {
      BitBelow(x / 2, i - 1);
    }
  }

  /** Adding `2^i` to a number below `2^i` sets bit `i` and changes no other bit:
      on such a number, `x | 1 << i == x + 2^i`. */
  lemma {:induction false} BitAddHigh(x: nat, i: nat, j: nat)
    requires x < Pow2(i)
    ensures Bit(x + Pow2(i), j) == (j == i || Bit(x, j))
  {
    if i == 0 {
      assert x == 0;
      if j > 0 {
        assert (x + 1) / 2 == 0;
        BitBelow(0, j - 1);
      }
    } else if j > 0 {
      assert (x + Pow2(i)) / 2 == x / 2 + Pow2(i - 1);
      BitAddHigh(x / 2, i - 1, j - 1);
    }
  }

  /** `PackBits(bs)` fits in `|bs|` bits and its bit `j` is `bs[j]`. */
  lemma {:induction false} PackBitsSpec(bs: seq<bool>)
    ensures PackBits(bs) < Pow2(|bs|)
    ensures forall j :: 0 <= j < |bs| ==> (Bit(PackBits(bs), j) <==> bs[j])
  {
    if bs != [] {
      var n := |bs| - 1;
      var init := bs[..n];
      PackBitsSpec(init);
      var x := PackBits(init);
      forall j | 0 <= j < |bs|
        ensures Bit(PackBits(bs), j) <==> bs[j]
      {
        if bs[n] {
          BitAddHigh(x, n, j);
        } else if j == n {
          BitBelow(x, n);
        }
      }
    }
  }

  /** A number below `2^n` whose low `n` bits are all clear is 0. */
  lemma {:induction false} AllClear(x: nat, n: nat)
    requires x < Pow2(n)
    requires forall j :: 0 <= j < n ==> !Bit(x, j)
    ensures x == 0
  {
    if n > 0 {
      forall j | 0 <= j < n - 1
        ensures !Bit(x / 2, j)
      {
        assert Bit(x, j + 1) == Bit(x / 2, j);
      }
      AllClear(x / 2, n - 1);
      assert !Bit(x, 0);
    }
  }

  /** A number below `2^n` whose low `n` bits are all set is `2^n - 1`. */
  lemma {:induction false} AllSet(x: nat, n: nat)
    requires x < Pow2(n)
    requires forall j :: 0 <= j < n ==> Bit(x, j)
    ensures x == Pow2(n) - 1
  {
    if n > 0 {
      forall j | 0 <= j < n - 1
        ensures Bit(x / 2, j)
      {
        assert Bit(x, j + 1) == Bit(x / 2, j);
      }
      AllSet(x / 2, n - 1);
      assert Bit(x, 0);
    }
  }
}
