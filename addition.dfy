/** Carry-propagating addition of limb vectors. */
module Addition {
  import opened Arith
  import opened Limbs

  /** One column of the addition: the limb pushed and the carry passed on
      account for the column's digit sum at place value BASE^i. */
  lemma ColumnStep(x: nat, c': nat, g1: nat, g2: nat, c: nat, p: nat)
    requires x + c' * BASE == g1 + g2 + c
    ensures x * p + c' * (BASE * p) == c * p + g1 * p + g2 * p
  {
    calc {
      x * p + c' * (BASE * p);
      x * p + (c' * BASE) * p;
      (x + c' * BASE) * p;
      (g1 + g2 + c) * p;
    }
  }

  /** Pushing the limb x and passing on the carry c' for column i keeps the
      limbs and the carry equal to the sum of the first i + 1 limbs of both
      operands. */
  lemma SumStep(b1: BigInt, b2: BigInt, i: nat, before: seq<Limb>, x: Limb, c: nat, c': nat)
    requires |before| == i
    requires Value(before) + c * Pow(BASE, i) == Value(Take(b1.data, i)) + Value(Take(b2.data, i))
    requires x + c' * BASE == Get(b1, i) + Get(b2, i) + c
    ensures Value(before + [x]) + c' * Pow(BASE, i + 1)
            == Value(Take(b1.data, i + 1)) + Value(Take(b2.data, i + 1))
  {
    ValueAppend(before, x);
    TakeStep(b1.data, i);
    TakeStep(b2.data, i);
    ColumnStep(x, c', Get(b1, i), Get(b2, i), c, Pow(BASE, i));
  }

  /** The sum of two limb vectors. One limb is pushed per index below the
      longer length; a final carry adds one more limb holding 1. */
  method Sum(b1: BigInt, b2: BigInt) returns (result: BigInt)
    ensures Value(result.data) == Value(b1.data) + Value(b2.data)
    ensures var n := Max(|b1.data|, |b2.data|);
      |result.data| == if Value(b1.data) + Value(b2.data) < Pow(BASE, n) then n else n + 1
    ensures |result.data| > Max(|b1.data|, |b2.data|) ==> result.data[|result.data| - 1] == 1
  {
    result := Zero();
    var largest := Max(|b1.data|, |b2.data|);
    var carry: Wide := 0;
    for i := 0 to largest
      invariant |result.data| == i
      invariant carry <= 1
      invariant Value(result.data) + carry * Pow(BASE, i)
                == Value(Take(b1.data, i)) + Value(Take(b2.data, i))
    {
      var digitSum: Wide := Get(b1, i) + Get(b2, i) + carry;
      ghost var before, carryIn := result.data, carry;
      var limb: Limb;
      if digitSum >= BASE {
        limb, carry := digitSum - BASE, 1;
      } else {
        limb, carry := digitSum, 0;
      }
      result := result.(data := result.data + [limb]);
      SumStep(b1, b2, i, before, limb, carryIn, carry);
    }
    assert Take(b1.data, largest) == b1.data && Take(b2.data, largest) == b2.data;
    ValueBound(result.data);
    if carry == 1 {
      assert Value(result.data) + Pow(BASE, largest) == Value(b1.data) + Value(b2.data);
      ValueAppend(result.data, 1);
      result := result.(data := result.data + [1]);
    } else {
      assert Value(result.data) == Value(b1.data) + Value(b2.data);
    }
  }
}
