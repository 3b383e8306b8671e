/** The numbers written by the long digit strings of the crate's tests,
    evaluated digit by digit (at most ten digits per lemma, then joined). */
module Literals {
  import opened Arith
  import opened Decimal

  /** "4294967295" denotes BASE - 1. */
  lemma LargestLimbText()
    ensures IsDigits("4294967295") && DecimalValue("4294967295") == 4294967295
  {
    var t: string := [];
    DecimalValueSnoc(t, '4'); t := t + ['4'];
    DecimalValueSnoc(t, '2'); t := t + ['2'];
    DecimalValueSnoc(t, '9'); t := t + ['9'];
    DecimalValueSnoc(t, '4'); t := t + ['4'];
    DecimalValueSnoc(t, '9'); t := t + ['9'];
    DecimalValueSnoc(t, '6'); t := t + ['6'];
    DecimalValueSnoc(t, '7'); t := t + ['7'];
    DecimalValueSnoc(t, '2'); t := t + ['2'];
    DecimalValueSnoc(t, '9'); t := t + ['9'];
    DecimalValueSnoc(t, '5'); t := t + ['5'];
    assert t == "4294967295";
  }

  /** "4294967296" denotes BASE. */
  lemma BaseText()
    ensures IsDigits("4294967296") && DecimalValue("4294967296") == 4294967296
  {
    var t: string := [];
    DecimalValueSnoc(t, '4'); t := t + ['4'];
    DecimalValueSnoc(t, '2'); t := t + ['2'];
    DecimalValueSnoc(t, '9'); t := t + ['9'];
    DecimalValueSnoc(t, '4'); t := t + ['4'];
    DecimalValueSnoc(t, '9'); t := t + ['9'];
    DecimalValueSnoc(t, '6'); t := t + ['6'];
    DecimalValueSnoc(t, '7'); t := t + ['7'];
    DecimalValueSnoc(t, '2'); t := t + ['2'];
    DecimalValueSnoc(t, '9'); t := t + ['9'];
    DecimalValueSnoc(t, '6'); t := t + ['6'];
    assert t == "4294967296";
  }

  /** Digits 0 to 8 of "922337203685477580". */
  lemma TwoLimbTextPart0()
    ensures IsDigits("922337203") && DecimalValue("922337203") == 922337203
  {
    var t: string := [];
    DecimalValueSnoc(t, '9'); t := t + ['9'];
    DecimalValueSnoc(t, '2'); t := t + ['2'];
    DecimalValueSnoc(t, '2'); t := t + ['2'];
    DecimalValueSnoc(t, '3'); t := t + ['3'];
    DecimalValueSnoc(t, '3'); t := t + ['3'];
    DecimalValueSnoc(t, '7'); t := t + ['7'];
    DecimalValueSnoc(t, '2'); t := t + ['2'];
    DecimalValueSnoc(t, '0'); t := t + ['0'];
    DecimalValueSnoc(t, '3'); t := t + ['3'];
    assert t == "922337203";
  }

  /** Digits 9 to 17 of "922337203685477580". */
  lemma TwoLimbTextPart1()
    ensures IsDigits("685477580") && DecimalValue("685477580") == 685477580
  {
    var t: string := [];
    DecimalValueSnoc(t, '6'); t := t + ['6'];
    DecimalValueSnoc(t, '8'); t := t + ['8'];
    DecimalValueSnoc(t, '5'); t := t + ['5'];
    DecimalValueSnoc(t, '4'); t := t + ['4'];
    DecimalValueSnoc(t, '7'); t := t + ['7'];
    DecimalValueSnoc(t, '7'); t := t + ['7'];
    DecimalValueSnoc(t, '5'); t := t + ['5'];
    DecimalValueSnoc(t, '8'); t := t + ['8'];
    DecimalValueSnoc(t, '0'); t := t + ['0'];
    assert t == "685477580";
  }

  /** The 18-digit from_string test string. */
  lemma TwoLimbText()
    ensures IsDigits("922337203685477580") && DecimalValue("922337203685477580") == 922337203685477580
  {
    TwoLimbTextPart0();
    TwoLimbTextPart1();
    DecimalValueConcat("922337203", "685477580");
    assert "922337203" + "685477580" == "922337203685477580";
    assert Pow10(9) == 1000000000;
  }

  /** Digits 0 to 7 of "9223372036854775803949". */
  lemma ThreeLimbTextPart0()
    ensures IsDigits("92233720") && DecimalValue("92233720") == 92233720
  {
    var t: string := [];
    DecimalValueSnoc(t, '9'); t := t + ['9'];
    DecimalValueSnoc(t, '2'); t := t + ['2'];
    DecimalValueSnoc(t, '2'); t := t + ['2'];
    DecimalValueSnoc(t, '3'); t := t + ['3'];
    DecimalValueSnoc(t, '3'); t := t + ['3'];
    DecimalValueSnoc(t, '7'); t := t + ['7'];
    DecimalValueSnoc(t, '2'); t := t + ['2'];
    DecimalValueSnoc(t, '0'); t := t + ['0'];
    assert t == "92233720";
  }

  /** Digits 8 to 15 of "9223372036854775803949". */
  lemma ThreeLimbTextPart1()
    ensures IsDigits("36854775") && DecimalValue("36854775") == 36854775
  {
    var t: string := [];
    DecimalValueSnoc(t, '3'); t := t + ['3'];
    DecimalValueSnoc(t, '6'); t := t + ['6'];
    DecimalValueSnoc(t, '8'); t := t + ['8'];
    DecimalValueSnoc(t, '5'); t := t + ['5'];
    DecimalValueSnoc(t, '4'); t := t + ['4'];
    DecimalValueSnoc(t, '7'); t := t + ['7'];
    DecimalValueSnoc(t, '7'); t := t + ['7'];
    DecimalValueSnoc(t, '5'); t := t + ['5'];
    assert t == "36854775";
  }

  /** Digits 16 to 21 of "9223372036854775803949". */
  lemma ThreeLimbTextPart2()
    ensures IsDigits("803949") && DecimalValue("803949") == 803949
  {
    var t: string := [];
    DecimalValueSnoc(t, '8'); t := t + ['8'];
    DecimalValueSnoc(t, '0'); t := t + ['0'];
    DecimalValueSnoc(t, '3'); t := t + ['3'];
    DecimalValueSnoc(t, '9'); t := t + ['9'];
    DecimalValueSnoc(t, '4'); t := t + ['4'];
    DecimalValueSnoc(t, '9'); t := t + ['9'];
    assert t == "803949";
  }

  /** The 22-digit from_string test string. */
  lemma ThreeLimbText()
    ensures IsDigits("9223372036854775803949") && DecimalValue("9223372036854775803949") == 9223372036854775803949
  {
    ThreeLimbTextPart0();
    ThreeLimbTextPart1();
    DecimalValueConcat("92233720", "36854775");
    assert "92233720" + "36854775" == "9223372036854775";
    assert Pow10(8) == 100000000;
    ThreeLimbTextPart2();
    DecimalValueConcat("9223372036854775", "803949");
    assert "9223372036854775" + "803949" == "9223372036854775803949";
    assert Pow10(6) == 1000000;
  }

  /** Digits 10 to 19 of "42949672963434342343243324343232890890". */
  lemma FourLimbTextPart1()
    ensures IsDigits("3434342343") && DecimalValue("3434342343") == 3434342343
  {
    var t: string := [];
    DecimalValueSnoc(t, '3'); t := t + ['3'];
    DecimalValueSnoc(t, '4'); t := t + ['4'];
    DecimalValueSnoc(t, '3'); t := t + ['3'];
    DecimalValueSnoc(t, '4'); t := t + ['4'];
    DecimalValueSnoc(t, '3'); t := t + ['3'];
    DecimalValueSnoc(t, '4'); t := t + ['4'];
    DecimalValueSnoc(t, '2'); t := t + ['2'];
    DecimalValueSnoc(t, '3'); t := t + ['3'];
    DecimalValueSnoc(t, '4'); t := t + ['4'];
    DecimalValueSnoc(t, '3'); t := t + ['3'];
    assert t == "3434342343";
  }

  /** Digits 20 to 29 of "42949672963434342343243324343232890890". */
  lemma FourLimbTextPart2()
    ensures IsDigits("2433243432") && DecimalValue("2433243432") == 2433243432
  {
    var t: string := [];
    DecimalValueSnoc(t, '2'); t := t + ['2'];
    DecimalValueSnoc(t, '4'); t := t + ['4'];
    DecimalValueSnoc(t, '3'); t := t + ['3'];
    DecimalValueSnoc(t, '3'); t := t + ['3'];
    DecimalValueSnoc(t, '2'); t := t + ['2'];
    DecimalValueSnoc(t, '4'); t := t + ['4'];
    DecimalValueSnoc(t, '3'); t := t + ['3'];
    DecimalValueSnoc(t, '4'); t := t + ['4'];
    DecimalValueSnoc(t, '3'); t := t + ['3'];
    DecimalValueSnoc(t, '2'); t := t + ['2'];
    assert t == "2433243432";
  }

  /** Digits 30 to 37 of "42949672963434342343243324343232890890". */
  lemma FourLimbTextPart3()
    ensures IsDigits("32890890") && DecimalValue("32890890") == 32890890
  {
    var t: string := [];
    DecimalValueSnoc(t, '3'); t := t + ['3'];
    DecimalValueSnoc(t, '2'); t := t + ['2'];
    DecimalValueSnoc(t, '8'); t := t + ['8'];
    DecimalValueSnoc(t, '9'); t := t + ['9'];
    DecimalValueSnoc(t, '0'); t := t + ['0'];
    DecimalValueSnoc(t, '8'); t := t + ['8'];
    DecimalValueSnoc(t, '9'); t := t + ['9'];
    DecimalValueSnoc(t, '0'); t := t + ['0'];
    assert t == "32890890";
  }

  /** The 38-digit from_string test string. */
  lemma FourLimbText()
    ensures IsDigits("42949672963434342343243324343232890890") && DecimalValue("42949672963434342343243324343232890890") == 42949672963434342343243324343232890890
  {
    BaseText();
    FourLimbTextPart1();
    DecimalValueConcat("4294967296", "3434342343");
    assert "4294967296" + "3434342343" == "42949672963434342343";
    assert Pow10(10) == 10000000000;
    FourLimbTextPart2();
    DecimalValueConcat("42949672963434342343", "2433243432");
    assert "42949672963434342343" + "2433243432" == "429496729634343423432433243432";
    assert Pow10(10) == 10000000000;
    FourLimbTextPart3();
    DecimalValueConcat("429496729634343423432433243432", "32890890");
    assert "429496729634343423432433243432" + "32890890" == "42949672963434342343243324343232890890";
    assert Pow10(8) == 100000000;
  }

  /** Digits 0 to 8 of "683598349590386730945834985730495834". */
  lemma SumLeftTextPart0()
    ensures IsDigits("683598349") && DecimalValue("683598349") == 683598349
  {
    var t: string := [];
    DecimalValueSnoc(t, '6'); t := t + ['6'];
    DecimalValueSnoc(t, '8'); t := t + ['8'];
    DecimalValueSnoc(t, '3'); t := t + ['3'];
    DecimalValueSnoc(t, '5'); t := t + ['5'];
    DecimalValueSnoc(t, '9'); t := t + ['9'];
    DecimalValueSnoc(t, '8'); t := t + ['8'];
    DecimalValueSnoc(t, '3'); t := t + ['3'];
    DecimalValueSnoc(t, '4'); t := t + ['4'];
    DecimalValueSnoc(t, '9'); t := t + ['9'];
    assert t == "683598349";
  }

  /** Digits 9 to 17 of "683598349590386730945834985730495834". */
  lemma SumLeftTextPart1()
    ensures IsDigits("590386730") && DecimalValue("590386730") == 590386730
  {
    var t: string := [];
    DecimalValueSnoc(t, '5'); t := t + ['5'];
    DecimalValueSnoc(t, '9'); t := t + ['9'];
    DecimalValueSnoc(t, '0'); t := t + ['0'];
    DecimalValueSnoc(t, '3'); t := t + ['3'];
    DecimalValueSnoc(t, '8'); t := t + ['8'];
    DecimalValueSnoc(t, '6'); t := t + ['6'];
    DecimalValueSnoc(t, '7'); t := t + ['7'];
    DecimalValueSnoc(t, '3'); t := t + ['3'];
    DecimalValueSnoc(t, '0'); t := t + ['0'];
    assert t == "590386730";
  }

  /** Digits 18 to 26 of "683598349590386730945834985730495834". */
  lemma SumLeftTextPart2()
    ensures IsDigits("945834985") && DecimalValue("945834985") == 945834985
  {
    var t: string := [];
    DecimalValueSnoc(t, '9'); t := t + ['9'];
    DecimalValueSnoc(t, '4'); t := t + ['4'];
    DecimalValueSnoc(t, '5'); t := t + ['5'];
    DecimalValueSnoc(t, '8'); t := t + ['8'];
    DecimalValueSnoc(t, '3'); t := t + ['3'];
    DecimalValueSnoc(t, '4'); t := t + ['4'];
    DecimalValueSnoc(t, '9'); t := t + ['9'];
    DecimalValueSnoc(t, '8'); t := t + ['8'];
    DecimalValueSnoc(t, '5'); t := t + ['5'];
    assert t == "945834985";
  }

  /** Digits 27 to 35 of "683598349590386730945834985730495834". */
  lemma SumLeftTextPart3()
    ensures IsDigits("730495834") && DecimalValue("730495834") == 730495834
  {
    var t: string := [];
    DecimalValueSnoc(t, '7'); t := t + ['7'];
    DecimalValueSnoc(t, '3'); t := t + ['3'];
    DecimalValueSnoc(t, '0'); t := t + ['0'];
    DecimalValueSnoc(t, '4'); t := t + ['4'];
    DecimalValueSnoc(t, '9'); t := t + ['9'];
    DecimalValueSnoc(t, '5'); t := t + ['5'];
    DecimalValueSnoc(t, '8'); t := t + ['8'];
    DecimalValueSnoc(t, '3'); t := t + ['3'];
    DecimalValueSnoc(t, '4'); t := t + ['4'];
    assert t == "730495834";
  }

  /** The first operand of the second sum test. */
  lemma SumLeftText()
    ensures IsDigits("683598349590386730945834985730495834") && DecimalValue("683598349590386730945834985730495834") == 683598349590386730945834985730495834
  {
    SumLeftTextPart0();
    SumLeftTextPart1();
    DecimalValueConcat("683598349", "590386730");
    assert "683598349" + "590386730" == "683598349590386730";
    assert Pow10(9) == 1000000000;
    SumLeftTextPart2();
    DecimalValueConcat("683598349590386730", "945834985");
    assert "683598349590386730" + "945834985" == "683598349590386730945834985";
    assert Pow10(9) == 1000000000;
    SumLeftTextPart3();
    DecimalValueConcat("683598349590386730945834985", "730495834");
    assert "683598349590386730945834985" + "730495834" == "683598349590386730945834985730495834";
    assert Pow10(9) == 1000000000;
  }

  /** Digits 0 to 9 of "394329047549488784748524048754". */
  lemma SumRightTextPart0()
    ensures IsDigits("3943290475") && DecimalValue("3943290475") == 3943290475
  {
    var t: string := [];
    DecimalValueSnoc(t, '3'); t := t + ['3'];
    DecimalValueSnoc(t, '9'); t := t + ['9'];
    DecimalValueSnoc(t, '4'); t := t + ['4'];
    DecimalValueSnoc(t, '3'); t := t + ['3'];
    DecimalValueSnoc(t, '2'); t := t + ['2'];
    DecimalValueSnoc(t, '9'); t := t + ['9'];
    DecimalValueSnoc(t, '0'); t := t + ['0'];
    DecimalValueSnoc(t, '4'); t := t + ['4'];
    DecimalValueSnoc(t, '7'); t := t + ['7'];
    DecimalValueSnoc(t, '5'); t := t + ['5'];
    assert t == "3943290475";
  }

  /** Digits 10 to 19 of "394329047549488784748524048754". */
  lemma SumRightTextPart1()
    ensures IsDigits("4948878474") && DecimalValue("4948878474") == 4948878474
  {
    var t: string := [];
    DecimalValueSnoc(t, '4'); t := t + ['4'];
    DecimalValueSnoc(t, '9'); t := t + ['9'];
    DecimalValueSnoc(t, '4'); t := t + ['4'];
    DecimalValueSnoc(t, '8'); t := t + ['8'];
    DecimalValueSnoc(t, '8'); t := t + ['8'];
    DecimalValueSnoc(t, '7'); t := t + ['7'];
    DecimalValueSnoc(t, '8'); t := t + ['8'];
    DecimalValueSnoc(t, '4'); t := t + ['4'];
    DecimalValueSnoc(t, '7'); t := t + ['7'];
    DecimalValueSnoc(t, '4'); t := t + ['4'];
    assert t == "4948878474";
  }

  /** Digits 20 to 29 of "394329047549488784748524048754". */
  lemma SumRightTextPart2()
    ensures IsDigits("8524048754") && DecimalValue("8524048754") == 8524048754
  {
    var t: string := [];
    DecimalValueSnoc(t, '8'); t := t + ['8'];
    DecimalValueSnoc(t, '5'); t := t + ['5'];
    DecimalValueSnoc(t, '2'); t := t + ['2'];
    DecimalValueSnoc(t, '4'); t := t + ['4'];
    DecimalValueSnoc(t, '0'); t := t + ['0'];
    DecimalValueSnoc(t, '4'); t := t + ['4'];
    DecimalValueSnoc(t, '8'); t := t + ['8'];
    DecimalValueSnoc(t, '7'); t := t + ['7'];
    DecimalValueSnoc(t, '5'); t := t + ['5'];
    DecimalValueSnoc(t, '4'); t := t + ['4'];
    assert t == "8524048754";
  }

  /** The second operand of the second sum test. */
  lemma SumRightText()
    ensures IsDigits("394329047549488784748524048754") && DecimalValue("394329047549488784748524048754") == 394329047549488784748524048754
  {
    SumRightTextPart0();
    SumRightTextPart1();
    DecimalValueConcat("3943290475", "4948878474");
    assert "3943290475" + "4948878474" == "39432904754948878474";
    assert Pow10(10) == 10000000000;
    SumRightTextPart2();
    DecimalValueConcat("39432904754948878474", "8524048754");
    assert "39432904754948878474" + "8524048754" == "394329047549488784748524048754";
    assert Pow10(10) == 10000000000;
  }

  /** Digits 0 to 8 of "683598743919434280434619734254544588". */
  lemma SumResultTextPart0()
    ensures IsDigits("683598743") && DecimalValue("683598743") == 683598743
  {
    var t: string := [];
    DecimalValueSnoc(t, '6'); t := t + ['6'];
    DecimalValueSnoc(t, '8'); t := t + ['8'];
    DecimalValueSnoc(t, '3'); t := t + ['3'];
    DecimalValueSnoc(t, '5'); t := t + ['5'];
    DecimalValueSnoc(t, '9'); t := t + ['9'];
    DecimalValueSnoc(t, '8'); t := t + ['8'];
    DecimalValueSnoc(t, '7'); t := t + ['7'];
    DecimalValueSnoc(t, '4'); t := t + ['4'];
    DecimalValueSnoc(t, '3'); t := t + ['3'];
    assert t == "683598743";
  }

  /** Digits 9 to 17 of "683598743919434280434619734254544588". */
  lemma SumResultTextPart1()
    ensures IsDigits("919434280") && DecimalValue("919434280") == 919434280
  {
    var t: string := [];
    DecimalValueSnoc(t, '9'); t := t + ['9'];
    DecimalValueSnoc(t, '1'); t := t + ['1'];
    DecimalValueSnoc(t, '9'); t := t + ['9'];
    DecimalValueSnoc(t, '4'); t := t + ['4'];
    DecimalValueSnoc(t, '3'); t := t + ['3'];
    DecimalValueSnoc(t, '4'); t := t + ['4'];
    DecimalValueSnoc(t, '2'); t := t + ['2'];
    DecimalValueSnoc(t, '8'); t := t + ['8'];
    DecimalValueSnoc(t, '0'); t := t + ['0'];
    assert t == "919434280";
  }

  /** Digits 18 to 26 of "683598743919434280434619734254544588". */
  lemma SumResultTextPart2()
    ensures IsDigits("434619734") && DecimalValue("434619734") == 434619734
  {
    var t: string := [];
    DecimalValueSnoc(t, '4'); t := t + ['4'];
    DecimalValueSnoc(t, '3'); t := t + ['3'];
    DecimalValueSnoc(t, '4'); t := t + ['4'];
    DecimalValueSnoc(t, '6'); t := t + ['6'];
    DecimalValueSnoc(t, '1'); t := t + ['1'];
    DecimalValueSnoc(t, '9'); t := t + ['9'];
    DecimalValueSnoc(t, '7'); t := t + ['7'];
    DecimalValueSnoc(t, '3'); t := t + ['3'];
    DecimalValueSnoc(t, '4'); t := t + ['4'];
    assert t == "434619734";
  }

  /** Digits 27 to 35 of "683598743919434280434619734254544588". */
  lemma SumResultTextPart3()
    ensures IsDigits("254544588") && DecimalValue("254544588") == 254544588
  {
    var t: string := [];
    DecimalValueSnoc(t, '2'); t := t + ['2'];
    DecimalValueSnoc(t, '5'); t := t + ['5'];
    DecimalValueSnoc(t, '4'); t := t + ['4'];
    DecimalValueSnoc(t, '5'); t := t + ['5'];
    DecimalValueSnoc(t, '4'); t := t + ['4'];
    DecimalValueSnoc(t, '4'); t := t + ['4'];
    DecimalValueSnoc(t, '5'); t := t + ['5'];
    DecimalValueSnoc(t, '8'); t := t + ['8'];
    DecimalValueSnoc(t, '8'); t := t + ['8'];
    assert t == "254544588";
  }

  /** The expected result of the second sum test. */
  lemma SumResultText()
    ensures IsDigits("683598743919434280434619734254544588") && DecimalValue("683598743919434280434619734254544588") == 683598743919434280434619734254544588
  {
    SumResultTextPart0();
    SumResultTextPart1();
    DecimalValueConcat("683598743", "919434280");
    assert "683598743" + "919434280" == "683598743919434280";
    assert Pow10(9) == 1000000000;
    SumResultTextPart2();
    DecimalValueConcat("683598743919434280", "434619734");
    assert "683598743919434280" + "434619734" == "683598743919434280434619734";
    assert Pow10(9) == 1000000000;
    SumResultTextPart3();
    DecimalValueConcat("683598743919434280434619734", "254544588");
    assert "683598743919434280434619734" + "254544588" == "683598743919434280434619734254544588";
    assert Pow10(9) == 1000000000;
  }
}
