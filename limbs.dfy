/** The limb vector: an unsigned integer of any size stored as 32-bit limbs,
    least significant first, in radix 2^32. Two vectors that differ only in
    trailing zero limbs denote the same number. */
module Limbs {
  import opened Arith

  /** The radix: one more than the largest u32. */
  const BASE: nat := 0x1_0000_0000

  /** One more than the largest u64, the bound of every widened accumulator. */
  const WIDE: nat := 0x1_0000_0000_0000_0000

  /** A u32 limb. */
  type Limb = x: nat | x < BASE

  /** A u64 accumulator. */
  type Wide = x: nat | x < WIDE

  datatype BigInt = BigInt(data: seq<Limb>)

  /** The number a limb vector denotes: the sum of s[i] * BASE^i. */
  ghost function Value(s: seq<Limb>): nat
  {
    if s == [] then 0 else s[0] + BASE * Value(s[1..])
  }

  /** n zero limbs. */
  function Zeros(n: nat): seq<Limb>
  {
    seq(n, _ => 0)
  }

  /** The first n limbs of s, or all of s when it is shorter. */
  function Take(s: seq<Limb>, n: nat): seq<Limb>
  {
    if n <= |s| then s[..n] else s
  }

  function Zero(): (z: BigInt)
    ensures Value(z.data) == 0
  {
    BigInt([])
  }

  /** Limb i, where every index past the end reads as a zero limb: digit i
      of the number in radix BASE. */
  function Get(b: BigInt, i: nat): (d: Limb)
    ensures d == Value(b.data) / Pow(BASE, i) % BASE
  {
    LimbIsDigit(b.data, i);
    if i < |b.data| then b.data[i] else 0
  }

  /** Equality of the denoted numbers: the limbs agree at every index below
      the longer length, and so at every index at all. */
  predicate Eq(a: BigInt, b: BigInt)
    ensures Eq(a, b) <==> forall i: nat :: Get(a, i) == Get(b, i)
  {
    forall i :: 0 <= i < Max(|a.data|, |b.data|) ==> Get(a, i) == Get(b, i)
  }

  lemma {:induction false} ValueAppend(s: seq<Limb>, x: Limb)
    ensures Value(s + [x]) == Value(s) + x * Pow(BASE, |s|)
  {
    if s == [] {
      assert s + [x] == [x];
      assert [x][1..] == [];
    } else {
      assert (s + [x])[1..] == s[1..] + [x];
      ValueAppend(s[1..], x);
      var p := Pow(BASE, |s| - 1);
      calc {
        Value(s + [x]);
        s[0] + BASE * Value(s[1..] + [x]);
        s[0] + BASE * (Value(s[1..]) + x * p);
        s[0] + BASE * Value(s[1..]) + BASE * (x * p);
        { assert BASE * (x * p) == x * (BASE * p); }
        Value(s) + x * Pow(BASE, |s|);
      }
    }
  }

  /** A vector of n limbs denotes a number below BASE^n. */
  lemma {:induction false} ValueBound(s: seq<Limb>)
    ensures Value(s) < Pow(BASE, |s|)
  {
    if s != [] {
      ValueBound(s[1..]);
    }
  }

  /** Appending zero limbs does not change the number. */
  lemma {:induction false} ValueTrailingZeros(s: seq<Limb>, k: nat)
    ensures Value(s + Zeros(k)) == Value(s)
  {
    if k > 0 {
      assert s + Zeros(k) == (s + Zeros(k - 1)) + [0];
      ValueAppend(s + Zeros(k - 1), 0);
      ValueTrailingZeros(s, k - 1);
    } else {
      assert s + Zeros(k) == s;
    }
  }

  /** Growing a prefix by one index adds limb i (possibly an implicit zero)
      at place value BASE^i. */
  lemma TakeStep(s: seq<Limb>, i: nat)
    ensures Value(Take(s, i + 1)) == Value(Take(s, i)) + Get(BigInt(s), i) * Pow(BASE, i)
  {
    if i < |s| {
      assert s[..i + 1] == s[..i] + [s[i]];
      ValueAppend(s[..i], s[i]);
    } else {
      assert s[..|s|] == s;
    }
  }

  /** Limb i (0 past the end) is digit i of the number in radix BASE. */
  lemma {:induction false} LimbIsDigit(s: seq<Limb>, i: nat)
    ensures (if i < |s| then s[i] else 0) == Value(s) / Pow(BASE, i) % BASE
    decreases i
  {
    if s == [] {
      assert Value(s) == 0;
    } else {
      DivModUnique(Value(s), BASE, Value(s[1..]), s[0]);
      if i > 0 {
        LimbIsDigit(s[1..], i - 1);
        DivDiv(Value(s), BASE, Pow(BASE, i - 1));
      }
    }
  }

  /** The limbs past the first, or nothing. */
  function Tail(s: seq<Limb>): seq<Limb>
  {
    if s == [] then [] else s[1..]
  }

  /** Two vectors agree limb by limb exactly when their leading limbs agree and
      their tails agree limb by limb. */
  lemma EqUnfold(a: BigInt, b: BigInt)
    requires a.data != [] || b.data != []
    ensures Eq(a, b) <==> Get(a, 0) == Get(b, 0) && Eq(BigInt(Tail(a.data)), BigInt(Tail(b.data)))
  {
    var a', b' := BigInt(Tail(a.data)), BigInt(Tail(b.data));
    assert Max(|a.data|, |b.data|) == Max(|a'.data|, |b'.data|) + 1;
    assert forall i: nat :: Get(a, i + 1) == Get(a', i) && Get(b, i + 1) == Get(b', i);
    if Eq(a, b) {
      forall i | 0 <= i < Max(|a'.data|, |b'.data|)
        ensures Get(a', i) == Get(b', i)
      {
        assert Get(a, i + 1) == Get(b, i + 1);
      }
    }
    if Get(a, 0) == Get(b, 0) && Eq(a', b') {
      forall i | 0 <= i < Max(|a.data|, |b.data|)
        ensures Get(a, i) == Get(b, i)
      {
        if i > 0 {
          assert Get(a', i - 1) == Get(b', i - 1);
        }
      }
    }
  }

  /** Equality of limb vectors is equality of the numbers they denote. */
  lemma {:induction false} EqIffSameValue(a: BigInt, b: BigInt)
    ensures Eq(a, b) <==> Value(a.data) == Value(b.data)
    decreases |a.data| + |b.data|
  {
    if a.data != [] || b.data != [] {
      var a', b' := BigInt(Tail(a.data)), BigInt(Tail(b.data));
      EqUnfold(a, b);
      EqIffSameValue(a', b');
      assert Value(a.data) == Get(a, 0) + BASE * Value(a'.data);
      assert Value(b.data) == Get(b, 0) + BASE * Value(b'.data);
      if Value(a.data) == Value(b.data) {
        DivModUnique(Value(a.data), BASE, Value(a'.data), Get(a, 0));
        DivModUnique(Value(b.data), BASE, Value(b'.data), Get(b, 0));
      }
    }
  }

  /** Eq is an equivalence relation. */
  lemma EqEquivalence(a: BigInt, b: BigInt, c: BigInt)
    ensures Eq(a, a)
    ensures Eq(a, b) ==> Eq(b, a)
    ensures Eq(a, b) && Eq(b, c) ==> Eq(a, c)
  {
    EqIffSameValue(a, b);
    EqIffSameValue(b, a);
    EqIffSameValue(b, c);
    EqIffSameValue(a, c);
  }

  /** Appending zero limbs gives an equal number. */
  lemma EqTrailingZeros(b: BigInt, k: nat)
    ensures Eq(b, BigInt(b.data + Zeros(k)))
  {
    ValueTrailingZeros(b.data, k);
    EqIffSameValue(b, BigInt(b.data + Zeros(k)));
  }
}
