/**
  Products of reals. Proofs about signs and order hide the product and use these lemmas;
  polynomial identities unfold it.
*/
module Reals {
  function Times(x: real, y: real): real { x * y }

  function Square(x: real): real { Times(x, x) }

  lemma Positive(x: real, y: real)
    requires x > 0.0 && y > 0.0
    ensures Times(x, y) > 0.0
  {
  }

  lemma NonNegative(x: real, y: real)
    requires x >= 0.0 && y >= 0.0
    ensures Times(x, y) >= 0.0
  {
  }

  lemma Units(x: real)
    ensures Times(1.0, x) == x && Times(0.0, x) == 0.0 && Times(x, 1.0) == x && Times(x, 0.0) == 0.0
  {
  }

  lemma Commutes(x: real, y: real)
    ensures Times(x, y) == Times(y, x)
  {
  }

  lemma Distributes(x: real, y: real, z: real)
    ensures Times(x + y, z) == Times(x, z) + Times(y, z)
    ensures Times(x - y, z) == Times(x, z) - Times(y, z)
    ensures Times(-x, z) == -Times(x, z)
  {
  }

  lemma Shares(x: real, y: real, z: real)
    ensures Times(x, y + z) == Times(x, y) + Times(x, z)
  {
  }

  function Over(x: real, y: real): real
    requires y != 0.0
  {
    x / y
  }

  lemma Quotient(x: real, y: real)
    requires y != 0.0
    ensures Times(Over(x, y), y) == x
  {
  }

  lemma KeepsOrder(x: real, y: real, z: real)
    requires x <= y && z >= 0.0
    ensures Times(x, z) <= Times(y, z) && Times(z, x) <= Times(z, y)
    ensures x < y && z > 0.0 ==> Times(x, z) < Times(y, z)
  {
    hide Times;
    NonNegative(y - x, z);
    if x < y && z > 0.0 { Positive(y - x, z); }
    Distributes(y, x, z);
    Commutes(x, z);
    Commutes(y, z);
  }

  lemma SquareSign(x: real)
    ensures Square(x) >= 0.0 && (x != 0.0 ==> Square(x) > 0.0)
  {
    hide Times;
    Units(0.0);
    if x > 0.0 { Positive(x, x); }
    if x < 0.0 {
      Positive(-x, -x);
      Distributes(x, x, -x);
      Distributes(x, x, x);
      Commutes(x, -x);
    }
  }

  lemma SquaresCompare(x: real, y: real)
    requires x >= 0.0 && y >= 0.0
    ensures Square(x) <= Square(y) <==> x <= y
  {
    hide Times;
    if x <= y {
      KeepsOrder(x, y, x);
      KeepsOrder(x, y, y);
    } else {
      KeepsOrder(y, x, x);
      KeepsOrder(y, x, y);
    }
  }
}
