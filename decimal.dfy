/** Decimal text to limbs. The digits are cut into chunks of eight, and the
    chunked number is divided by BASE again and again: each pass replaces
    every chunk by a quotient and yields the remainder as the next limb. */
module Decimal {
  import opened Arith
  import opened Limbs

  datatype Option<T> = None | Some(value: T)

  /** Digits per chunk. */
  const PARSE_STEP: nat := 8

  predicate IsDigit(c: char) { '0' <= c <= '9' }

  predicate IsDigits(s: string)
  {
    forall k :: 0 <= k < |s| ==> IsDigit(s[k])
  }

  /** A slice of a digit string is a digit string. */
  lemma DigitsSlice(s: string, lo: nat, hi: nat)
    requires IsDigits(s) && lo <= hi <= |s|
    ensures IsDigits(s[lo..hi])
  {
    forall k | 0 <= k < hi - lo ensures IsDigit(s[lo..hi][k]) {
      assert s[lo..hi][k] == s[lo + k];
    }
  }

  /** The number a digit string denotes, most significant digit first; the
      empty string denotes 0. */
  function DecimalValue(s: string): nat
    requires IsDigits(s)
  {
    if s == [] then 0 else DecimalValue(s[..|s| - 1]) * 10 + (s[|s| - 1] as int - '0' as int)
  }

  lemma Pow10Values()
    ensures Pow10(8) == 100_000_000
    ensures Pow10(19) == 10_000_000_000_000_000_000
  {
  }

  /** A string of n digits denotes a number below 10^n. */
  lemma {:induction false} DecimalValueBound(s: string)
    requires IsDigits(s)
    ensures DecimalValue(s) < Pow10(|s|)
  {
    if s != [] {
      DecimalValueBound(s[..|s| - 1]);
    }
  }

  /** Reading a digit string in two parts: the head shifted by the length of
      the tail, plus the tail. */
  lemma {:induction false} DecimalValueSplit(s: string, k: nat)
    requires IsDigits(s) && k <= |s|
    ensures DecimalValue(s) == DecimalValue(s[..k]) * Pow10(|s| - k) + DecimalValue(s[k..])
  {
    if k == |s| {
      assert s[..k] == s;
      assert s[k..] == [];
    } else {
      var init := s[..|s| - 1];
      DecimalValueSplit(init, k);
      assert init[..k] == s[..k];
      assert init[k..] == s[k..][..|s[k..]| - 1];
      var d := s[|s| - 1] as int - '0' as int;
      assert DecimalValue(s[k..]) == DecimalValue(init[k..]) * 10 + d;
      ShiftDigit(DecimalValue(s), DecimalValue(s[..k]), DecimalValue(init[k..]), d,
                 Pow10(|s| - 1 - k), Pow10(|s| - k), DecimalValue(s[k..]));
    }
  }

  /** Appending digit d to a number split as h * p + t. */
  lemma ShiftDigit(v: nat, h: nat, t: nat, d: nat, p: nat, p': nat, t': nat)
    requires v == (h * p + t) * 10 + d && p' == 10 * p && t' == t * 10 + d
    ensures v == h * p' + t'
  {
  }

  /** The number of characters in the decimal rendering of n (1 for 0). */
  function Digits(n: nat): (k: nat)
    ensures 1 <= k && n < Pow10(k)
    ensures k > 1 ==> Pow10(k - 1) <= n
  {
    if n < 10 then 1 else 1 + Digits(n / 10)
  }

  /** A number below 10^w has at most w digits. */
  lemma DigitsWithin(u: nat, w: nat)
    ensures 1 <= w && u < Pow10(w) ==> Digits(u) <= w
  {
    if 1 <= w && u < Pow10(w) && Digits(u) > w {
      PowMonotone(10, w, Digits(u) - 1);
    }
  }

  /** With carry < BASE and u < p, the carry written in front of u at place
      value p stays below BASE * p. */
  lemma CombineBound(carry: nat, u: nat, p: nat)
    ensures carry < BASE && u < p ==> carry * p + u < BASE * p
  {
    if carry < BASE && u < p {
      MulMonotone(carry, BASE - 1, p);
    }
  }

  /** The digit character for d. */
  function DigitChar(d: nat): (c: char)
    requires d < 10
    ensures IsDigit(c) && c as int - '0' as int == d
  {
    ('0' as int + d) as char
  }

  /** Appending one digit multiplies the number by ten and adds the digit. */
  lemma DecimalValueSnoc(s: string, c: char)
    requires IsDigits(s) && IsDigit(c)
    ensures IsDigits(s + [c])
    ensures DecimalValue(s + [c]) == DecimalValue(s) * 10 + (c as int - '0' as int)
  {
    assert (s + [c])[..|s|] == s;
  }

  /** Two digit strings written one after the other form a digit string. */
  lemma DigitsConcat(a: string, b: string)
    requires IsDigits(a) && IsDigits(b)
    ensures IsDigits(a + b)
  {
    var s := a + b;
    forall k | 0 <= k < |s| ensures IsDigit(s[k]) {
      if k < |a| {
        assert s[k] == a[k];
      } else {
        assert s[k] == b[k - |a|];
      }
    }
  }

  /** A digit string written after another: the first is shifted by the
      length of the second. */
  lemma DecimalValueConcat(a: string, b: string)
    requires IsDigits(a) && IsDigits(b)
    ensures IsDigits(a + b)
    ensures DecimalValue(a + b) == DecimalValue(a) * Pow10(|b|) + DecimalValue(b)
  {
    var s := a + b;
    DigitsConcat(a, b);
    DecimalValueSplit(s, |a|);
    assert s[..|a|] == a && s[|a|..] == b;
  }

  /** to_string of an unsigned integer: its decimal digits, most significant
      first. The text has Digits(n) characters, starts with '0' only when n
      is 0, and reads back as n. */
  function DecimalString(n: nat): (s: string)
    ensures |s| == Digits(n) && IsDigits(s) && DecimalValue(s) == n
    ensures s[0] == '0' ==> n == 0
  {
    if n < 10 then
      DecimalValueSnoc([], DigitChar(n));
      assert [] + [DigitChar(n)] == [DigitChar(n)];
      [DigitChar(n)]
    else
      var init := DecimalString(n / 10);
      DecimalValueSnoc(init, DigitChar(n % 10));
      init + [DigitChar(n % 10)]
  }

  /** k zero digits. */
  function ZeroDigits(k: nat): string
  {
    seq(k, _ => '0')
  }

  /** A string of zero digits denotes 0. */
  lemma {:induction false} ZeroDigitsValue(k: nat)
    ensures IsDigits(ZeroDigits(k)) && DecimalValue(ZeroDigits(k)) == 0
  {
    if k > 0 {
      assert ZeroDigits(k)[..k - 1] == ZeroDigits(k - 1);
      ZeroDigitsValue(k - 1);
    }
  }

  /** A digit string, k zero digits and a second digit string, read as one
      number: the first string lands at place value 10^(k + |t|). */
  lemma GluedValue(c: string, k: nat, t: string)
    requires IsDigits(c) && IsDigits(t)
    ensures IsDigits(c + ZeroDigits(k) + t)
    ensures DecimalValue(c + ZeroDigits(k) + t) == DecimalValue(c) * Pow10(k + |t|) + DecimalValue(t)
  {
    var padding := ZeroDigits(k);
    assert IsDigits(c + padding) && DecimalValue(c + padding) == DecimalValue(c) * Pow10(k) by {
      ZeroDigitsValue(k);
      DecimalValueConcat(c, padding);
    }
    assert IsDigits(c + padding + t) by {
      DecimalValueConcat(c + padding, t);
    }
    assert DecimalValue(c + padding + t) == DecimalValue(c + padding) * Pow10(|t|) + DecimalValue(t) by {
      DecimalValueConcat(c + padding, t);
    }
    assert Pow10(k + |t|) == Pow10(k) * Pow10(|t|) by {
      PowAdd(10, k, |t|);
    }
    ShiftTwice(DecimalValue(c), Pow10(k), Pow10(|t|), DecimalValue(t));
  }

  /** Shifting by p and then by q is shifting by p * q. */
  lemma ShiftTwice(c: nat, p: nat, q: nat, u: nat)
    ensures (c * p) * q + u == c * (p * q) + u
  {
  }

  /** The text apply_carry parses, from the text of the carry and the text
      of u: the carry, then u left-padded with zeros to originalSize
      characters when it is shorter. */
  function GluedText(carryText: string, uText: string, originalSize: nat): (s: string)
    requires IsDigits(carryText) && IsDigits(uText)
    ensures IsDigits(s)
  {
    if |uText| < originalSize then
      var padding := ZeroDigits(originalSize - |uText|);
      DigitsConcat(carryText, padding);
      DigitsConcat(carryText + padding, uText);
      carryText + padding + uText
    else
      DigitsConcat(carryText, uText);
      carryText + uText
  }

  /** The number of zeros apply_carry pads u's text with. */
  function Padding(len: nat, originalSize: nat): nat
  {
    if len < originalSize then originalSize - len else 0
  }

  /** Both branches of the glued text are the carry's text, the padding
      zeros and u's text. */
  lemma GluedTextShape(carryText: string, uText: string, originalSize: nat)
    requires IsDigits(carryText) && IsDigits(uText)
    ensures GluedText(carryText, uText, originalSize)
            == carryText + ZeroDigits(Padding(|uText|, originalSize)) + uText
    ensures Padding(|uText|, originalSize) + |uText| == Max(originalSize, |uText|)
  {
    if |uText| >= originalSize {
      assert carryText + ZeroDigits(0) + uText == carryText + uText;
    }
  }

  /** The glued text denotes the carry at place value 10^originalSize, or
      10^|uText| when u's text is at least that long, plus u. */
  lemma GluedTextValue(carryText: string, uText: string, originalSize: nat)
    requires IsDigits(carryText) && IsDigits(uText)
    ensures DecimalValue(GluedText(carryText, uText, originalSize))
            == DecimalValue(carryText) * Pow10(Max(originalSize, |uText|)) + DecimalValue(uText)
  {
    GluedTextShape(carryText, uText, originalSize);
    GluedValue(carryText, Padding(|uText|, originalSize), uText);
  }

  /** apply_carry: the glued text of the carry's and u's decimal texts,
      parsed back as a number. */
  function ApplyCarry(u: nat, carry: nat, originalSize: nat): (r: nat)
    ensures r == carry * Pow10(Max(originalSize, Digits(u))) + u
  {
    var carryText, uText := DecimalString(carry), DecimalString(u);
    GluedTextValue(carryText, uText, originalSize);
    DecimalValue(GluedText(carryText, uText, originalSize))
  }

  /** A chunk that fits its original size is read at exactly that size: the
      carry lands at place value 10^originalSize. */
  lemma ApplyCarryPadsToSize(u: nat, carry: nat, originalSize: nat)
    requires 1 <= originalSize && u < Pow10(originalSize)
    ensures ApplyCarry(u, carry, originalSize) == carry * Pow10(originalSize) + u
  {
    DigitsWithin(u, originalSize);
  }

  /** A limb carry in front of a chunk of at most eight digits fits in a u64,
      so the parse of the concatenated text cannot fail. */
  lemma ApplyCarryFits(u: nat, carry: nat, originalSize: nat)
    requires carry < BASE && u < Pow10(PARSE_STEP) && originalSize <= PARSE_STEP
    ensures ApplyCarry(u, carry, originalSize) < BASE * Pow10(PARSE_STEP)
    ensures BASE * Pow10(PARSE_STEP) < WIDE
  {
    DigitsWithin(u, PARSE_STEP);
    var padded := Max(originalSize, Digits(u));
    CombineBound(carry, u, Pow10(padded));
    PowMonotone(10, Digits(u), padded);
    PowMonotone(10, padded, PARSE_STEP);
    MulMonotone(Pow10(padded), Pow10(PARSE_STEP), BASE);
    Pow10Values();
  }

  /** Whether every chunk is zero. */
  predicate AllZero(v: seq<nat>)
  {
    forall k :: 0 <= k < |v| ==> v[k] == 0
  }

  /** all_zero: scans the chunks and stops at the first nonzero one. */
  method CheckAllZero(v: seq<Wide>) returns (b: bool)
    ensures b <==> AllZero(v)
  {
    for k := 0 to |v|
      invariant forall j :: 0 <= j < k ==> v[j] == 0
    {
      if v[k] > 0 {
        return false;
      }
    }
    return true;
  }

  /** The number denoted by chunks written one after the other, chunk k
      zero-padded to widths[k] digits, the most significant chunk first. */
  ghost function DecimalOf(chunks: seq<nat>, widths: seq<nat>): nat
    requires |chunks| == |widths|
  {
    if chunks == [] then 0
    else DecimalOf(chunks[..|chunks| - 1], widths[..|widths| - 1]) * Pow10(widths[|widths| - 1])
         + chunks[|chunks| - 1]
  }

  /** The chunks are all zero exactly when they denote zero. */
  lemma {:induction false} AllZeroIffZero(chunks: seq<nat>, widths: seq<nat>)
    requires |chunks| == |widths|
    ensures AllZero(chunks) <==> DecimalOf(chunks, widths) == 0
  {
    if chunks != [] {
      var n := |chunks|;
      AllZeroIffZero(chunks[..n - 1], widths[..n - 1]);
      var d := DecimalOf(chunks[..n - 1], widths[..n - 1]);
      if d > 0 {
        MulMonotone(1, d, Pow10(widths[n - 1]));
      }
      if AllZero(chunks[..n - 1]) && chunks[n - 1] == 0 {
        forall k | 0 <= k < n ensures chunks[k] == 0 {
          if k < n - 1 {
            assert chunks[..n - 1][k] == chunks[k];
          }
        }
      }
    }
  }

  /** Growing a prefix of the chunks by one chunk. */
  lemma PrefixStep(chunks: seq<nat>, widths: seq<nat>, i: nat)
    requires |chunks| == |widths| && i < |chunks|
    ensures DecimalOf(chunks[..i + 1], widths[..i + 1])
            == DecimalOf(chunks[..i], widths[..i]) * Pow10(widths[i]) + chunks[i]
  {
    assert chunks[..i + 1][..i] == chunks[..i];
    assert widths[..i + 1][..i] == widths[..i];
  }

  /** Reading the last chunk at width 8 instead of a width w <= 8 that both
      last chunks fit keeps the order of two chunk vectors. */
  lemma RepadOrder(x: seq<nat>, y: seq<nat>, widths: seq<nat>)
    requires |x| == |y| == |widths| > 0
    requires forall k :: 0 <= k < |widths| - 1 ==> widths[k] == PARSE_STEP
    requires widths[|widths| - 1] <= PARSE_STEP
    requires x[|x| - 1] < Pow10(widths[|widths| - 1]) && y[|y| - 1] < Pow10(widths[|widths| - 1])
    requires DecimalOf(x, widths) < DecimalOf(y, widths)
    ensures DecimalOf(x, Eights(|x|)) < DecimalOf(y, Eights(|y|))
  {
    var n := |x|;
    var e := Eights(n);
    assert e[..n - 1] == widths[..n - 1];
    PowMonotone(10, widths[n - 1], PARSE_STEP);
    ReorderDigits(DecimalOf(x[..n - 1], widths[..n - 1]), DecimalOf(y[..n - 1], widths[..n - 1]),
                  x[n - 1], y[n - 1], Pow10(widths[n - 1]), Pow10(PARSE_STEP));
  }

  /** x' * p + xl < y' * p + yl with both low parts below p compares the
      high parts first, so it stays true with p raised to q. */
  lemma ReorderDigits(x': nat, y': nat, xl: nat, yl: nat, p: nat, q: nat)
    requires xl < p && yl < p && p <= q
    requires x' * p + xl < y' * p + yl
    ensures x' * q + xl < y' * q + yl
  {
    if x' > y' {
      MulMonotone(y' + 1, x', p);
    } else if x' < y' {
      MulMonotone(x' + 1, y', q);
    }
  }

  /** One division step: chunk u, read with the incoming remainder in front
      at place value p, is split into quotient q and remainder r. */
  lemma DivisionStep(before: nat, after: nat, carry: nat, u: nat, p: nat, q: nat, r: nat)
    requires before == after * BASE + carry
    requires q * BASE + r == carry * p + u
    ensures before * p + u == (after * p + q) * BASE + r
  {
    calc {
      before * p + u;
      (after * BASE + carry) * p + u;
      (after * p) * BASE + (carry * p + u);
      (after * p) * BASE + q * BASE + r;
      (after * p + q) * BASE + r;
    }
  }

  /** The relation of a pass between the chunks and the quotients, extended
      past chunk i. */
  lemma PassStep(chunks: seq<nat>, w: seq<nat>, quotients: seq<nat>, i: nat,
                 carry: nat, quotient: nat, remainder: nat)
    requires |chunks| == |w| == |quotients| && i < |chunks| && quotients[i] == chunks[i]
    requires DecimalOf(chunks[..i], w[..i]) == DecimalOf(quotients[..i], w[..i]) * BASE + carry
    requires quotient * BASE + remainder == carry * Pow10(w[i]) + chunks[i]
    ensures DecimalOf(chunks[..i + 1], w[..i + 1])
            == DecimalOf(quotients[i := quotient][..i + 1], w[..i + 1]) * BASE + remainder
  {
    PrefixStep(chunks, w, i);
    PrefixStep(quotients[i := quotient], w, i);
    assert quotients[i := quotient][..i] == quotients[..i];
    DivisionStep(DecimalOf(chunks[..i], w[..i]), DecimalOf(quotients[..i], w[..i]), carry, chunks[i],
                 Pow10(w[i]), quotient, remainder);
  }

  /** Width 8 for every chunk: the order used to show that the passes end. */
  ghost function Eights(n: nat): seq<nat>
  {
    seq(n, _ => PARSE_STEP)
  }

  /** The width at which each chunk is read when a remainder is written in
      front of it: its original size (lastSize for the last chunk, 8 for the
      others), or its current digit count when that is larger. */
  ghost function UsedWidths(chunks: seq<nat>, lastSize: nat): (w: seq<nat>)
    ensures |w| == |chunks|
  {
    seq(|chunks|, k requires 0 <= k < |chunks| =>
      Max(if k == |chunks| - 1 then lastSize else PARSE_STEP, Digits(chunks[k])))
  }

  lemma UsedWidthAt(chunks: seq<nat>, lastSize: nat, k: nat)
    requires k < |chunks|
    ensures UsedWidths(chunks, lastSize)[k]
            == Max(if k == |chunks| - 1 then lastSize else PARSE_STEP, Digits(chunks[k]))
  {
  }

  /** Chunks of at most eight digits other than the last are read at width 8. */
  lemma LeadingWidths(chunks: seq<nat>, lastSize: nat)
    requires forall k :: 0 <= k < |chunks| ==> chunks[k] < Pow10(PARSE_STEP)
    ensures forall k :: 0 <= k < |chunks| - 1 ==> UsedWidths(chunks, lastSize)[k] == PARSE_STEP
  {
    forall k | 0 <= k < |chunks| - 1 ensures UsedWidths(chunks, lastSize)[k] == PARSE_STEP {
      UsedWidthAt(chunks, lastSize, k);
      DigitsWithin(chunks[k], PARSE_STEP);
    }
  }

  /** Every chunk fits the width it is read at, and chunks of at most eight
      digits are read at no more than eight digits. */
  lemma UsedWidthsBounds(chunks: seq<nat>, lastSize: nat)
    ensures forall k :: 0 <= k < |chunks| ==>
      1 <= UsedWidths(chunks, lastSize)[k] && chunks[k] < Pow10(UsedWidths(chunks, lastSize)[k])
    ensures (forall k :: 0 <= k < |chunks| ==> chunks[k] < Pow10(PARSE_STEP)) && lastSize <= PARSE_STEP ==>
      forall k :: 0 <= k < |chunks| ==> UsedWidths(chunks, lastSize)[k] <= PARSE_STEP
  {
    var w := UsedWidths(chunks, lastSize);
    forall k | 0 <= k < |chunks|
      ensures 1 <= w[k] && chunks[k] < Pow10(w[k])
      ensures chunks[k] < Pow10(PARSE_STEP) && lastSize <= PARSE_STEP ==> w[k] <= PARSE_STEP
    {
      PowMonotone(10, Digits(chunks[k]), w[k]);
      DigitsWithin(chunks[k], PARSE_STEP);
    }
  }

  /** One step of a pass: chunk u with the remainder carry written in front
      of it (when carry is nonzero) is divided by BASE. With a carry below
      BASE the glued value fits a u64, and the quotient fits the width the
      chunk is read at. */
  method DivideChunk(u: Wide, carry: Limb, originalChunkSize: nat) returns (quotient: Wide, remainder: Limb)
    requires u < Pow10(PARSE_STEP) && originalChunkSize <= PARSE_STEP
    ensures quotient * BASE + remainder == carry * Pow10(Max(originalChunkSize, Digits(u))) + u
    ensures quotient < Pow10(Max(originalChunkSize, Digits(u)))
  {
    var p := Pow10(Max(originalChunkSize, Digits(u)));
    ApplyCarryFits(u, carry, originalChunkSize);
    var temp: Wide;
    if carry > 0 {
      temp := ApplyCarry(u, carry, originalChunkSize);
    } else {
      temp := u;
    }
    assert temp < BASE * p by {
      PowMonotone(10, Digits(u), Max(originalChunkSize, Digits(u)));
      CombineBound(carry, u, p);
    }
    quotient := temp / BASE;
    remainder := temp % BASE;
    DivBelow(temp, BASE, p);
  }

  /** One pass of the long division, the inner for loop of from_string: each
      chunk, with the incoming remainder written in front of it, is replaced
      by its quotient by BASE, and the remainder moves on to the next chunk.
      The chunks, read at the widths the pass uses, are divided by BASE: the
      quotients are the new chunks and the final remainder is returned. */
  method DividePass(chunks: seq<Wide>, lastSize: nat) returns (quotients: seq<Wide>, carry: Limb)
    requires forall k :: 0 <= k < |chunks| ==> chunks[k] < Pow10(PARSE_STEP)
    requires lastSize <= PARSE_STEP
    ensures |quotients| == |chunks|
    ensures var w := UsedWidths(chunks, lastSize);
      DecimalOf(chunks, w) == DecimalOf(quotients, w) * BASE + carry
      && forall k :: 0 <= k < |quotients| ==> quotients[k] < Pow10(w[k])
    ensures forall k :: 0 <= k < |quotients| ==> quotients[k] < Pow10(PARSE_STEP)
    ensures !AllZero(quotients) ==>
      DecimalOf(quotients, Eights(|chunks|)) < DecimalOf(chunks, Eights(|chunks|))
  {
    ghost var w := UsedWidths(chunks, lastSize);
    UsedWidthsBounds(chunks, lastSize);
    quotients := chunks;
    carry := 0;
    for i := 0 to |chunks|
      invariant |quotients| == |chunks|
      invariant forall k :: i <= k < |chunks| ==> quotients[k] == chunks[k]
      invariant forall k :: 0 <= k < i ==> quotients[k] < Pow10(w[k])
      invariant DecimalOf(chunks[..i], w[..i]) == DecimalOf(quotients[..i], w[..i]) * BASE + carry
    {
      var originalChunkSize := if i == |quotients| - 1 then lastSize else PARSE_STEP;
      UsedWidthAt(chunks, lastSize, i);
      var quotient, remainder := DivideChunk(quotients[i], carry, originalChunkSize);
      PassStep(chunks, w, quotients, i, carry, quotient, remainder);
      quotients := quotients[i := quotient];
      carry := remainder;
    }
    assert chunks[..|chunks|] == chunks && quotients[..|quotients|] == quotients && w[..|w|] == w;
    PassDecreases(chunks, quotients, lastSize, carry);
  }

  /** A pass over chunks of at most eight digits yields quotients of at most
      eight digits, and unless they are all zero they denote a smaller number
      at width 8: the measure that makes the outer loop end. */
  lemma PassDecreases(chunks: seq<nat>, quotients: seq<nat>, lastSize: nat, carry: nat)
    requires forall k :: 0 <= k < |chunks| ==> chunks[k] < Pow10(PARSE_STEP)
    requires lastSize <= PARSE_STEP && |quotients| == |chunks|
    requires var w := UsedWidths(chunks, lastSize);
      DecimalOf(chunks, w) == DecimalOf(quotients, w) * BASE + carry
      && forall k :: 0 <= k < |quotients| ==> quotients[k] < Pow10(w[k])
    ensures forall k :: 0 <= k < |quotients| ==> quotients[k] < Pow10(PARSE_STEP)
    ensures !AllZero(quotients) ==>
      DecimalOf(quotients, Eights(|chunks|)) < DecimalOf(chunks, Eights(|chunks|))
  {
    var w := UsedWidths(chunks, lastSize);
    UsedWidthsBounds(chunks, lastSize);
    forall k | 0 <= k < |quotients| ensures quotients[k] < Pow10(PARSE_STEP) {
      PowMonotone(10, w[k], PARSE_STEP);
    }
    if !AllZero(quotients) {
      AllZeroIffZero(quotients, w);
      MulMonotone(1, BASE, DecimalOf(quotients, w));
      LeadingWidths(chunks, lastSize);
      RepadOrder(quotients, chunks, w);
    }
  }

  /** Chunk vectors the parser can produce: every chunk below 10^8, every
      width between 1 and 8, and every width but the last equal to 8. */
  ghost predicate Layout(chunks: seq<nat>, widths: seq<nat>)
  {
    |chunks| == |widths|
    && (forall k :: 0 <= k < |chunks| ==> 1 <= widths[k] <= PARSE_STEP && chunks[k] < Pow10(PARSE_STEP))
    && (forall k :: 0 <= k < |chunks| - 1 ==> widths[k] == PARSE_STEP)
  }

  /** Every chunk fits its width. */
  ghost predicate Padded(chunks: seq<nat>, widths: seq<nat>)
  {
    |chunks| == |widths| && forall k :: 0 <= k < |chunks| ==> chunks[k] < Pow10(widths[k])
  }

  /** The size used for the last chunk is its true width, or no remainder
      ever reaches the last chunk because it is also the first. */
  ghost predicate SizesAgree(lastSize: nat, widths: seq<nat>)
  {
    |widths| <= 1 || lastSize == widths[|widths| - 1]
  }

  /** When the sizes agree, a pass read at the widths it uses is a division
      by BASE of the chunks read at their true widths, and the quotients fit
      those widths. */
  lemma SoundPass(before: seq<nat>, after: seq<nat>, carry: nat, lastSize: nat, widths: seq<nat>)
    requires Layout(before, widths) && Padded(before, widths) && SizesAgree(lastSize, widths)
    requires |after| == |before|
    requires DecimalOf(before, UsedWidths(before, lastSize))
             == DecimalOf(after, UsedWidths(before, lastSize)) * BASE + carry
    requires forall k :: 0 <= k < |after| ==> after[k] < Pow10(UsedWidths(before, lastSize)[k])
    ensures Padded(after, widths)
    ensures DecimalOf(before, widths) == DecimalOf(after, widths) * BASE + carry
  {
    var w := UsedWidths(before, lastSize);
    if |before| >= 2 {
      SameWidths(before, lastSize, widths);
    } else if |before| == 1 {
      DecimalOfSingle(before, w);
      DecimalOfSingle(after, w);
      DecimalOfSingle(before, widths);
      DecimalOfSingle(after, widths);
      MulMonotone(1, BASE, after[0]);
    }
  }

  /** With two chunks or more and sizes that agree, a pass reads every chunk
      at its true width. */
  lemma SameWidths(chunks: seq<nat>, lastSize: nat, widths: seq<nat>)
    requires Layout(chunks, widths) && Padded(chunks, widths) && SizesAgree(lastSize, widths)
    requires |chunks| >= 2
    ensures UsedWidths(chunks, lastSize) == widths
  {
    var w := UsedWidths(chunks, lastSize);
    forall k | 0 <= k < |chunks| ensures w[k] == widths[k] {
      UsedWidthAt(chunks, lastSize, k);
      DigitsWithin(chunks[k], widths[k]);
    }
  }

  /** A single chunk denotes itself, whatever its width. */
  lemma DecimalOfSingle(x: seq<nat>, widths: seq<nat>)
    requires |x| == |widths| == 1
    ensures DecimalOf(x, widths) == x[0]
  {
    assert x[..0] == [] && widths[..0] == [];
  }

  /** A pass leaves every chunk zero exactly when the number it divides is
      below BASE; the remainder is then that number, nonzero unless the
      chunks were all zero already. */
  lemma PassOutcome(before: seq<nat>, after: seq<nat>, widths: seq<nat>, carry: nat)
    requires |before| == |after| == |widths| && carry < BASE
    requires DecimalOf(before, widths) == DecimalOf(after, widths) * BASE + carry
    ensures AllZero(after) <==> DecimalOf(before, widths) < BASE
    ensures AllZero(after) ==> carry == DecimalOf(before, widths)
    ensures AllZero(after) && !AllZero(before) ==> carry != 0
  {
    AllZeroIffZero(after, widths);
    AllZeroIffZero(before, widths);
    if DecimalOf(after, widths) > 0 {
      MulMonotone(1, DecimalOf(after, widths), BASE);
    }
  }

  /** Pushing the remainder of a pass as the next limb keeps the number that
      the limbs and the remaining chunks denote together. */
  lemma PushLimb(limbs: seq<Limb>, carry: Limb, before: nat, after: nat, total: nat)
    requires Value(limbs) + Pow(BASE, |limbs|) * before == total
    requires before == after * BASE + carry
    ensures Value(limbs + [carry]) + Pow(BASE, |limbs| + 1) * after == total
    ensures after == 0 ==> Value(limbs + [carry]) == total
  {
    ValueAppend(limbs, carry);
    var p := Pow(BASE, |limbs|);
    PushArith(Value(limbs), Value(limbs + [carry]), carry, p, Pow(BASE, |limbs| + 1), before, after, total);
  }

  lemma PushArith(v: nat, v': nat, c: nat, p: nat, p': nat, before: nat, after: nat, total: nat)
    requires v' == v + c * p && p' == BASE * p
    requires v + p * before == total && before == after * BASE + c
    ensures v' + p' * after == total
    ensures after == 0 ==> v' == total
  {
    assert p * before == p * (after * BASE) + p * c;
  }

  /** No limb vector ends in a zero limb, except the single zero limb. */
  predicate Canonical(s: seq<Limb>)
  {
    |s| == 1 || (|s| > 1 && s[|s| - 1] != 0)
  }

  /** The number the first pass divides: the chunks read at the widths that
      pass uses. */
  ghost function FirstPassValue(chunks: seq<nat>, lastSize: nat): nat
  {
    DecimalOf(chunks, UsedWidths(chunks, lastSize))
  }

  /** The state of the outer loop of from_string after the limbs have been
      pushed and chunks remain to be divided: the chunks keep the layout;
      when the sizes agree, the limbs and the chunks together denote the
      original number; before the first pass the chunks are the original
      ones, and after it some chunk is nonzero and the first pass divided a
      number of at least BASE. */
  ghost predicate DivisionState(chunks0: seq<nat>, lastSize: nat, widths: seq<nat>,
                                limbs: seq<Limb>, chunks: seq<nat>)
  {
    Layout(chunks, widths)
    && (Padded(chunks0, widths) && SizesAgree(lastSize, widths) ==>
          Padded(chunks, widths)
          && Value(limbs) + Pow(BASE, |limbs|) * DecimalOf(chunks, widths) == DecimalOf(chunks0, widths))
    && (|limbs| == 0 ==> chunks == chunks0)
    && (|limbs| > 0 ==> !AllZero(chunks) && FirstPassValue(chunks0, lastSize) >= BASE)
  }

  /** The facts a pass of DividePass establishes about the quotients it
      leaves in place of the chunks. */
  ghost predicate PassResult(before: seq<nat>, lastSize: nat, after: seq<nat>, carry: nat)
  {
    |after| == |before|
    && (var w := UsedWidths(before, lastSize);
        DecimalOf(before, w) == DecimalOf(after, w) * BASE + carry
        && forall k :: 0 <= k < |after| ==> after[k] < Pow10(w[k]))
    && forall k :: 0 <= k < |after| ==> after[k] < Pow10(PARSE_STEP)
  }

  /** When the sizes agree, pushing a pass's remainder as the next limb and
      putting its quotients in place of the chunks keeps the number that the
      limbs and the chunks denote together. */
  lemma SoundContinue(chunks0: seq<nat>, lastSize: nat, widths: seq<nat>, limbs: seq<Limb>,
                      before: seq<nat>, after: seq<nat>, carry: Limb)
    requires DivisionState(chunks0, lastSize, widths, limbs, before) && lastSize <= PARSE_STEP
    requires PassResult(before, lastSize, after, carry)
    requires Padded(chunks0, widths) && SizesAgree(lastSize, widths)
    ensures Padded(after, widths)
    ensures Value(limbs + [carry]) + Pow(BASE, |limbs| + 1) * DecimalOf(after, widths) == DecimalOf(chunks0, widths)
  {
    SoundPass(before, after, carry, lastSize, widths);
    PushLimb(limbs, carry, DecimalOf(before, widths), DecimalOf(after, widths), DecimalOf(chunks0, widths));
  }

  /** An iteration of the outer loop that leaves some quotient nonzero: with
      the pass's remainder pushed as the next limb and the quotients in place
      of the chunks, the loop's state carries over. */
  lemma OuterContinue(chunks0: seq<nat>, lastSize: nat, widths: seq<nat>, limbs: seq<Limb>,
                      before: seq<nat>, after: seq<nat>, carry: Limb)
    requires DivisionState(chunks0, lastSize, widths, limbs, before) && lastSize <= PARSE_STEP
    requires PassResult(before, lastSize, after, carry)
    requires !AllZero(after)
    ensures DivisionState(chunks0, lastSize, widths, limbs + [carry], after)
  {
    assert Layout(after, widths);
    if Padded(chunks0, widths) && SizesAgree(lastSize, widths) {
      SoundContinue(chunks0, lastSize, widths, limbs, before, after, carry);
    }
    if |limbs| == 0 {
      assert FirstPassValue(chunks0, lastSize) == DecimalOf(before, UsedWidths(before, lastSize));
      PassOutcome(before, after, UsedWidths(before, lastSize), carry);
    }
  }

  /** The iteration of the outer loop that leaves every quotient zero: the
      limbs with the pass's remainder pushed are the result. It is the single
      limb the first pass produced when that pass divided a number below
      BASE, and, when the sizes agree, the original number without trailing
      zero limbs. */
  lemma OuterFinish(chunks0: seq<nat>, lastSize: nat, widths: seq<nat>, limbs: seq<Limb>,
                    before: seq<nat>, after: seq<nat>, carry: Limb)
    requires DivisionState(chunks0, lastSize, widths, limbs, before) && lastSize <= PARSE_STEP
    requires PassResult(before, lastSize, after, carry)
    requires AllZero(after)
    ensures FirstPassValue(chunks0, lastSize) < BASE ==> limbs + [carry] == [FirstPassValue(chunks0, lastSize)]
    ensures Padded(chunks0, widths) && SizesAgree(lastSize, widths) ==>
      Value(limbs + [carry]) == DecimalOf(chunks0, widths) && Canonical(limbs + [carry])
  {
    PassOutcome(before, after, UsedWidths(before, lastSize), carry);
    if Padded(chunks0, widths) && SizesAgree(lastSize, widths) {
      SoundPass(before, after, carry, lastSize, widths);
      PushLimb(limbs, carry, DecimalOf(before, widths), DecimalOf(after, widths), DecimalOf(chunks0, widths));
      PassOutcome(before, after, widths, carry);
    }
  }

  /** The outer loop of from_string: passes of DividePass, each pushing its
      remainder as the next limb, until every chunk is zero. lastSize is the
      original size assumed for the last chunk. */
  method LongDivide(chunks0: seq<Wide>, lastSize: nat, ghost widths: seq<nat>) returns (result: BigInt)
    requires Layout(chunks0, widths) && lastSize <= PARSE_STEP
    ensures 1 <= |result.data|
    ensures FirstPassValue(chunks0, lastSize) < BASE ==> result.data == [FirstPassValue(chunks0, lastSize)]
    ensures Padded(chunks0, widths) && SizesAgree(lastSize, widths) ==>
      Value(result.data) == DecimalOf(chunks0, widths) && Canonical(result.data)
  {
    ghost var n := |chunks0|;
    var chunks := chunks0;
    result := Zero();
    while true
      invariant DivisionState(chunks0, lastSize, widths, result.data, chunks)
      invariant |chunks| == n
      decreases DecimalOf(chunks, Eights(n))
    {
      ghost var before := chunks;
      ghost var limbs := result.data;
      var carry;
      chunks, carry := DividePass(chunks, lastSize);
      assert PassResult(before, lastSize, chunks, carry);
      result := result.(data := result.data + [carry]);
      var done := CheckAllZero(chunks);
      if done {
        OuterFinish(chunks0, lastSize, widths, limbs, before, chunks, carry);
        break;
      }
      OuterContinue(chunks0, lastSize, widths, limbs, before, chunks, carry);
    }
  }
}
