/** The crate's unit tests, restated as members whose contracts give the
    outcome each test asserts, together with the input that exposes the
    chunk-width defect of from_string. */
module Scenarios {
  import opened Arith
  import opened Limbs
  import opened Addition
  import opened Multiplication
  import opened Decimal
  import opened Parse
  import opened Literals

  /** Prepending a limb: the number is multiplied by BASE and the limb added. */
  lemma ValueCons(x: Limb, s: seq<Limb>)
    ensures Value([x] + s) == x + BASE * Value(s)
  {
    assert ([x] + s)[1..] == s;
  }

  /** The numbers denoted by vectors of up to four limbs. */
  lemma ValueOfLimbs(a: Limb, b: Limb, c: Limb, d: Limb)
    ensures Value([a]) == a
    ensures Value([a, b]) == a + BASE * b
    ensures Value([a, b, c]) == a + BASE * (b + BASE * c)
    ensures Value([a, b, c, d]) == a + BASE * (b + BASE * (c + BASE * d))
  {
    ValueCons(a, []);
    assert [a] + [] == [a];
    ValueCons(b, []);
    assert [b] + [] == [b];
    ValueCons(c, []);
    assert [c] + [] == [c];
    ValueCons(d, []);
    assert [d] + [] == [d];
    ValueCons(a, [b]);
    ValueCons(b, [c]);
    ValueCons(c, [d]);
    ValueCons(a, [b, c]);
    ValueCons(b, [c, d]);
    ValueCons(a, [b, c, d]);
  }

  /** Vectors that differ only in trailing zero limbs are equal; moving a
      limb to another index is not. */
  lemma EqExamples()
    ensures Eq(BigInt([342, 0, 0, 0]), BigInt([342, 0]))
    ensures !Eq(BigInt([0, 342, 0, 0]), BigInt([342, 0, 0]))
  {
    assert Get(BigInt([0, 342, 0, 0]), 0) != Get(BigInt([342, 0, 0]), 0);
  }

  /** Parses a digit string of length at most 8 or not a multiple of 8: the
      result denotes the string's decimal value. */
  method ParseDigits(s: string) returns (b: BigInt)
    requires IsDigits(s) && (|s| <= 8 || |s| % 8 != 0)
    ensures Value(b.data) == DecimalValue(s)
  {
    var r := FromString(s);
    b := r.value;
  }

  /** Parsing "" gives a number equal to zero and to [0, 0]; parsing "342"
      gives one equal to [342] and to [342, 0, 0]; parsing "4" gives [4]. */
  method ShortStringsScenario() returns (empty: BigInt, small: BigInt, four: BigInt)
    ensures Eq(empty, BigInt([0, 0])) && Eq(empty, Zero())
    ensures Eq(small, BigInt([342])) && Eq(small, BigInt([342, 0, 0]))
    ensures Eq(four, BigInt([4]))
  {
    ValueOfLimbs(0, 0, 0, 0);
    ValueOfLimbs(342, 0, 0, 0);
    ValueOfLimbs(4, 0, 0, 0);
    assert IsDigits("");
    empty := ParseDigits("");
    EqIffSameValue(empty, BigInt([0, 0]));
    EqIffSameValue(empty, Zero());
    assert IsDigits("342");
    assert "342"[..2] == "34" && "34"[..1] == "3" && "3"[..0] == "";
    small := ParseDigits("342");
    EqIffSameValue(small, BigInt([342]));
    EqIffSameValue(small, BigInt([342, 0, 0]));
    assert IsDigits("4");
    assert "4"[..0] == "";
    four := ParseDigits("4");
    EqIffSameValue(four, BigInt([4]));
  }

  /** A from_string test on a digit string s: when the expected vector
      denotes the decimal value of s, and the length of s is at most 8 or
      not a multiple of 8, the parse equals the expected vector. */
  method FromStringTest(s: string, expected: BigInt) returns (r: BigInt)
    requires IsDigits(s) && (|s| <= 8 || |s| % 8 != 0)
    requires Value(expected.data) == DecimalValue(s)
    ensures Eq(r, expected)
  {
    r := ParseDigits(s);
    EqIffSameValue(r, expected);
  }

  /** The expected vectors of the remaining from_string tests, as numbers. */
  lemma FromStringTestVectors()
    ensures Value([4294967295]) == 4294967295
    ensures Value([0, 1]) == 4294967296
    ensures Value([3435973836, 214748364]) == 922337203685477580
    ensures Value([4294963245, 4294967295, 499]) == 9223372036854775803949
    ensures Value([3461744650, 2330743505, 1228788904, 542101086])
            == 42949672963434342343243324343232890890
  {
    ValueOfLimbs(4294967295, 0, 0, 0);
    ValueOfLimbs(0, 1, 0, 0);
    ValueOfLimbs(3435973836, 214748364, 0, 0);
    ValueOfLimbs(4294963245, 4294967295, 499, 0);
    ValueOfLimbs(3461744650, 2330743505, 1228788904, 542101086);
  }

  /** The from_string tests on long strings: each parse equals the vector
      the test expects. The lengths 10, 10, 18, 22 and 38 are not multiples
      of 8. */
  method FromStringScenario() returns (maxLimb: BigInt, base: BigInt, two: BigInt, three: BigInt, four: BigInt)
    ensures Eq(maxLimb, BigInt([4294967295]))
    ensures Eq(base, BigInt([0, 1]))
    ensures Eq(two, BigInt([3435973836, 214748364]))
    ensures Eq(three, BigInt([4294963245, 4294967295, 499]))
    ensures Eq(four, BigInt([3461744650, 2330743505, 1228788904, 542101086]))
  {
    FromStringTestVectors();
    LargestLimbText();
    maxLimb := FromStringTest("4294967295", BigInt([4294967295]));
    BaseText();
    base := FromStringTest("4294967296", BigInt([0, 1]));
    TwoLimbText();
    two := FromStringTest("922337203685477580", BigInt([3435973836, 214748364]));
    ThreeLimbText();
    three := FromStringTest("9223372036854775803949", BigInt([4294963245, 4294967295, 499]));
    FourLimbText();
    four := FromStringTest("42949672963434342343243324343232890890",
                           BigInt([3461744650, 2330743505, 1228788904, 542101086]));
  }

  /** The sum test: [BASE - 1, 1] + [1, 1, 1] equals [0, 3, 1]. */
  method SumScenario() returns (r: BigInt)
    ensures Eq(r, BigInt([0, 3, 1]))
  {
    ValueOfLimbs(BASE - 1, 1, 0, 0);
    ValueOfLimbs(1, 1, 1, 0);
    ValueOfLimbs(0, 3, 1, 0);
    r := Sum(BigInt([BASE - 1, 1]), BigInt([1, 1, 1]));
    EqIffSameValue(r, BigInt([0, 3, 1]));
  }

  /** The second sum test: the parse of "683598743919434280434619734254544588"
      equals the sum of the parses of its two operand strings (36 and 30
      digits). */
  method SumStringsScenario() returns (expected: BigInt, r: BigInt)
    ensures Eq(expected, r)
    ensures Value(r.data) == 683598743919434280434619734254544588
  {
    SumLeftText();
    SumRightText();
    SumResultText();
    var a := ParseDigits("683598349590386730945834985730495834");
    var b := ParseDigits("394329047549488784748524048754");
    expected := ParseDigits("683598743919434280434619734254544588");
    r := Sum(a, b);
    EqIffSameValue(expected, r);
  }

  /** The product test: [35454, 2] * [BASE - 1, 4, 1] equals
      [4294931842, 177267, 35464, 2]. */
  method ProductScenario() returns (r: BigInt)
    ensures Eq(r, BigInt([4294931842, 177267, 35464, 2]))
  {
    ValueOfLimbs(35454, 2, 0, 0);
    ValueOfLimbs(BASE - 1, 4, 1, 0);
    ValueOfLimbs(4294931842, 177267, 35464, 2);
    assert Value([35454, 2]) == 8589970046;
    assert Value([BASE - 1, 4, 1]) == 18446744095184388095;
    assert Value([4294931842, 177267, 35464, 2]) == 158456979223861266582889002370;
    r := Product(BigInt([35454, 2]), BigInt([BASE - 1, 4, 1]));
    assert Value(r.data) == 158456979223861266582889002370;
    EqIffSameValue(r, BigInt([4294931842, 177267, 35464, 2]));
  }

  /** sum is commutative. */
  method SumCommutes(a: BigInt, b: BigInt) returns (ab: BigInt, ba: BigInt)
    ensures Eq(ab, ba)
  {
    ab := Sum(a, b);
    ba := Sum(b, a);
    EqIffSameValue(ab, ba);
  }

  /** sum is associative. */
  method SumAssociates(a: BigInt, b: BigInt, c: BigInt) returns (left: BigInt, right: BigInt)
    ensures Eq(left, right)
  {
    var ab := Sum(a, b);
    left := Sum(ab, c);
    var bc := Sum(b, c);
    right := Sum(a, bc);
    EqIffSameValue(left, right);
  }

  /** zero() is the identity of sum. */
  method SumZero(a: BigInt) returns (r: BigInt)
    ensures Eq(r, a)
  {
    r := Sum(a, Zero());
    EqIffSameValue(r, a);
  }

  /** product is commutative. */
  method ProductCommutes(a: BigInt, b: BigInt) returns (ab: BigInt, ba: BigInt)
    ensures Eq(ab, ba)
  {
    ab := Product(a, b);
    ba := Product(b, a);
    EqIffSameValue(ab, ba);
  }

  /** Multiplying by zero() gives zero(), with no limbs at all. */
  method ProductZero(a: BigInt) returns (r: BigInt)
    ensures r == Zero() && Eq(r, Zero())
  {
    r := Product(a, Zero());
    EqIffSameValue(r, Zero());
  }

  /** The parse of "1" is the identity of product. */
  method ProductOne(a: BigInt) returns (r: BigInt)
    ensures Eq(r, a)
  {
    assert IsDigits("1") && "1"[..0] == "";
    var one := ParseDigits("1");
    r := Product(a, one);
    EqIffSameValue(r, a);
  }

  /** Multiplying by the parse of "2" gives the same number as adding a
      number to itself. */
  method Doubling(a: BigInt) returns (twice: BigInt, doubled: BigInt)
    ensures Eq(twice, doubled)
  {
    assert IsDigits("2") && "2"[..0] == "";
    var two := ParseDigits("2");
    twice := Product(two, a);
    doubled := Sum(a, a);
    EqIffSameValue(twice, doubled);
  }

  /** "12a3" is one chunk holding a character that is not a digit, so
      from_string fails on it. */
  method ParseRejects() returns (r: Option<BigInt>)
    ensures r.None?
  {
    var s := "12a3";
    assert ChunkCount(|s|, 8) == 1;
    assert Chunk(s, 8, 0) == s;
    assert !IsDigit(s[2]);
    assert ParseU64(Chunk(s, 8, 0)).None?;
    r := FromString(s);
  }

  /** A one followed by k zero digits denotes 10^k. */
  lemma {:induction false} PowerOfTenValue(k: nat)
    ensures IsDigits(['1'] + ZeroDigits(k)) && DecimalValue(['1'] + ZeroDigits(k)) == Pow10(k)
  {
    var s := ['1'] + ZeroDigits(k);
    if k == 0 {
      assert s[..0] == [];
    } else {
      assert s[..k] == ['1'] + ZeroDigits(k - 1);
      PowerOfTenValue(k - 1);
    }
  }

  lemma PowersOfTen()
    ensures Pow10(7) == 10000000 && Pow10(15) == 1000000000000000
  {
  }

  /** "1000000000000000" is a one followed by 15 zeros; its first chunk is a
      one followed by 7 zeros and its second chunk 8 zeros. */
  lemma PaddingDefectDigits()
    ensures "1000000000000000" == ['1'] + ZeroDigits(15)
    ensures Chunk("1000000000000000", 8, 0) == ['1'] + ZeroDigits(7)
    ensures Chunk("1000000000000000", 8, 1) == ZeroDigits(8)
  {
  }

  /** "1000000000000000" splits into the chunks "10000000" and "00000000",
      whose values are 10^7 and 0. */
  lemma PaddingDefectChunks()
    ensures IsDigits("1000000000000000")
    ensures ChunksParse("1000000000000000", 8)
    ensures ChunkValues("1000000000000000", 8) == [10000000, 0]
    ensures DecimalValue("1000000000000000") == 1000000000000000
  {
    var s := "1000000000000000";
    PaddingDefectDigits();
    PowerOfTenValue(15);
    PowerOfTenValue(7);
    ZeroDigitsValue(8);
    PowersOfTen();
    DigitChunksParse(s, 8);
    var c := ChunkValues(s, 8);
    ChunkValuesAt(s, 8, 0);
    ChunkValuesAt(s, 8, 1);
    assert c[0] == DecimalValue(Chunk(s, 8, 0));
    assert c[1] == DecimalValue(Chunk(s, 8, 1));
  }

  /** With 0 passed as the width of the last chunk, the chunks 10^7 and 0
      are read as 10^7 followed by a one-digit 0, that is 10^8. */
  lemma PaddingDefectFirstPass()
    ensures FirstPassValue([10000000, 0], 0) == 100000000
  {
    var c: seq<nat> := [10000000, 0];
    var w := UsedWidths(c, 0);
    Pow10Values();
    DigitsWithin(10000000, 8);
    UsedWidthAt(c, 0, 0);
    UsedWidthAt(c, 0, 1);
    assert w[0] == 8 && w[1] == 1;
    DecimalOfSingle(c[..1], w[..1]);
    assert DecimalOf(c, w) == DecimalOf(c[..1], w[..1]) * Pow10(1) + 0;
  }

  /** The defect in one statement: "1000000000000000" denotes 10^15, but the
      first pass of from_string as written sees 10^8. */
  lemma PaddingDefect()
    ensures IsDigits("1000000000000000")
    ensures ChunksParse("1000000000000000", 8)
    ensures FirstPassValue(ChunkValues("1000000000000000", 8), 0) == 100000000
    ensures DecimalValue("1000000000000000") == 1000000000000000
  {
    PaddingDefectChunks();
    PaddingDefectFirstPass();
  }

  /** from_string as written turns "1000000000000000" into [100000000]. */
  method PaddingDefectScenario() returns (r: Option<BigInt>)
    ensures r == Some(BigInt([100000000]))
    ensures Value(r.value.data) != DecimalValue("1000000000000000")
  {
    var s := "1000000000000000";
    PaddingDefect();
    ValueOfLimbs(100000000, 0, 0, 0);
    assert |s| % 8 == 0;
    r := FromString(s);
    assert r.value.data == [100000000];
  }

  /** With the width of the last chunk taken from the string length, the
      same input parses to 10^15. */
  method PaddingCorrectedScenario() returns (r: Option<BigInt>)
    ensures r.Some? && Value(r.value.data) == 1000000000000000
  {
    PaddingDefect();
    r := FromStringCorrected("1000000000000000");
  }
}
