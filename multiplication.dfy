/** Schoolbook multiplication: single-limb products, shifted by whole limbs
    and accumulated with Sum. */
module Multiplication {
  import opened Arith
  import opened Limbs
  import opened Addition

  /** A limb times a limb plus a limb carry stays within (BASE - 1) * BASE,
      below the u64 range. */
  lemma DigitProductFits(x: Limb, d: Limb, c: Limb)
    ensures x * d + c <= (BASE - 1) * BASE
  {
    MulMonotone(x, BASE - 1, d);
    MulMonotone(d, BASE - 1, BASE - 1);
  }

  /** Prepending i zero limbs multiplies the number by BASE^i. */
  lemma {:induction false} ValueShift(i: nat, s: seq<Limb>)
    ensures Value(Zeros(i) + s) == Pow(BASE, i) * Value(s)
  {
    if i == 0 {
      assert Zeros(i) + s == s;
    } else {
      assert (Zeros(i) + s)[1..] == Zeros(i - 1) + s;
      ValueShift(i - 1, s);
      calc {
        Value(Zeros(i) + s);
        BASE * Value(Zeros(i - 1) + s);
        BASE * (Pow(BASE, i - 1) * Value(s));
        (BASE * Pow(BASE, i - 1)) * Value(s);
      }
    }
  }

  /** Accounting for one more limb of the multiplicand in a running product. */
  lemma RowStep(v: nat, pre: nat, d1: nat, d: nat, x: nat, c: nat, c': nat, p: nat)
    requires v + c * p == pre * d
    requires x + c' * BASE == d1 * d + c
    ensures v + x * p + c' * (BASE * p) == (pre + d1 * p) * d
  {
    ColumnStep(x, c', d1 * d, 0, c, p);
    calc {
      v + x * p + c' * (BASE * p);
      v + c * p + (d1 * d) * p;
      pre * d + (d1 * d) * p;
      (pre + d1 * p) * d;
    }
  }

  /** Adding the shifted partial product a * d * p to a * b. */
  lemma AccumulateStep(a: nat, b: nat, d: nat, p: nat)
    ensures a * b + p * (a * d) == a * (b + d * p)
  {
    calc {
      p * (a * d);
      a * (d * p);
    }
  }

  /** The product of an m-limb and an n-limb number fits in m + n limbs. */
  lemma ProductBound(a: seq<Limb>, b: seq<Limb>)
    ensures Value(a) * Value(b) < Pow(BASE, |a| + |b|)
  {
    ValueBound(a);
    ValueBound(b);
    MulStrict(Value(a), Value(b), Pow(BASE, |a|), Pow(BASE, |b|));
    PowAdd(BASE, |a|, |b|);
  }

  /** Adding the partial product for limb i of b, b[i] times a shifted by i
      limbs, to the product of a with the first i limbs of b gives the
      product with the first i + 1 limbs, and it still fits in |a| + i + 1
      limbs. The requirements are what Sum and AtomicProduct promise. */
  lemma ProductStep(a: seq<Limb>, b: seq<Limb>, i: nat, before: seq<Limb>, temp: seq<Limb>, after: seq<Limb>)
    requires i < |b|
    requires Value(before) == Value(a) * Value(b[..i]) && |before| <= |a| + i
    requires Value(temp) == Pow(BASE, i) * (Value(a) * b[i]) && |temp| <= |a| + i + 1
    requires Value(after) == Value(before) + Value(temp)
    requires var n := Max(|before|, |temp|);
      |after| == if Value(before) + Value(temp) < Pow(BASE, n) then n else n + 1
    ensures Value(after) == Value(a) * Value(b[..i + 1])
    ensures |after| <= |a| + i + 1
  {
    assert b[..i + 1] == b[..i] + [b[i]];
    ValueAppend(b[..i], b[i]);
    AccumulateStep(Value(a), Value(b[..i]), b[i], Pow(BASE, i));
    ProductBound(a, b[..i + 1]);
  }

  /** b1 times the single limb d, with the carry widened to a u64. The result
      has one limb per limb of b1, plus one nonzero limb when a carry remains. */
  method AtomicProduct(b1: BigInt, d: Limb) returns (result: BigInt)
    ensures Value(result.data) == Value(b1.data) * d
    ensures |result.data| == if Value(b1.data) * d < Pow(BASE, |b1.data|) then |b1.data| else |b1.data| + 1
    ensures |result.data| > |b1.data| ==> result.data[|b1.data|] > 0
  {
    result := Zero();
    var carry: Wide := 0;
    for i := 0 to |b1.data|
      invariant |result.data| == i
      invariant carry < BASE
      invariant Value(result.data) + carry * Pow(BASE, i) == Value(b1.data[..i]) * d
    {
      var d1 := b1.data[i];
      DigitProductFits(d1, d, carry);
      var digitProduct: Wide := d1 * d + carry;
      ghost var before, carryIn := result.data, carry;
      result := result.(data := result.data + [digitProduct % BASE]);
      DivBelow(digitProduct, BASE, BASE);
      carry := digitProduct / BASE;
      ValueAppend(before, result.data[i]);
      assert b1.data[..i + 1] == b1.data[..i] + [d1];
      ValueAppend(b1.data[..i], d1);
      RowStep(Value(before), Value(b1.data[..i]), d1, d, result.data[i], carryIn, carry, Pow(BASE, i));
    }
    assert b1.data[..|b1.data|] == b1.data;
    ValueBound(result.data);
    if carry > 0 {
      MulMonotone(1, carry, Pow(BASE, |b1.data|));
      ValueAppend(result.data, carry);
      result := result.(data := result.data + [carry]);
    }
  }

  /** The product of two limb vectors. Every nonzero limb d at index i of b2
      contributes b1 * d shifted by i limbs; zero limbs are skipped. */
  method Product(b1: BigInt, b2: BigInt) returns (result: BigInt)
    ensures Value(result.data) == Value(b1.data) * Value(b2.data)
    ensures |result.data| <= |b1.data| + |b2.data|
    ensures (forall k :: 0 <= k < |b2.data| ==> b2.data[k] == 0) ==> result.data == []
  {
    result := Zero();
    for i := 0 to |b2.data|
      invariant Value(result.data) == Value(b1.data) * Value(b2.data[..i])
      invariant |result.data| <= |b1.data| + i
      invariant (forall k :: 0 <= k < i ==> b2.data[k] == 0) ==> result.data == []
    {
      var d := b2.data[i];
      if d > 0 {
        var temp := BigInt(Zeros(i));
        var partial := AtomicProduct(b1, d);
        temp := temp.(data := temp.data + partial.data);
        ValueShift(i, partial.data);
        ghost var before := result.data;
        result := Sum(result, temp);
        ProductStep(b1.data, b2.data, i, before, temp.data, result.data);
      } else {
        assert b2.data[..i + 1] == b2.data[..i] + [d];
        ValueAppend(b2.data[..i], d);
      }
    }
    assert b2.data[..|b2.data|] == b2.data;
  }
}
