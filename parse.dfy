/** From decimal text to a limb vector: the text is cut into chunks of
    PARSE_STEP characters, each chunk is parsed as a u64, and the chunks are
    divided by BASE pass after pass. PARSE_STEP is written as the literal 8
    throughout this module, so that products such as k * 8 stay linear. */
module Parse {
  import opened Arith
  import opened Limbs
  import opened Decimal

  /** The characters of a chunk that hold its digits: Rust's u64 parser
      accepts one leading '+'. */
  function ChunkDigits(t: string): string
  {
    if |t| > 0 && t[0] == '+' then t[1..] else t
  }

  /** Rust's str::parse::<u64>: fails on an empty digit part, on a character
      that is not a decimal digit, and on a value of 2^64 or more. */
  function ParseU64(t: string): (r: Option<Wide>)
    ensures t == [] || t == "+" ==> r.None?
    ensures (exists k :: 0 <= k < |t| && !IsDigit(t[k]) && !(k == 0 && t[k] == '+')) ==> r.None?
    ensures t != [] && IsDigits(t) ==> r == if DecimalValue(t) < WIDE then Some(DecimalValue(t)) else None
    ensures |t| > 1 && t[0] == '+' && IsDigits(t[1..]) ==>
      r == if DecimalValue(t[1..]) < WIDE then Some(DecimalValue(t[1..])) else None
  {
    var d := ChunkDigits(t);
    if d != [] && IsDigits(d) && DecimalValue(d) < WIDE then Some(DecimalValue(d)) else None
  }

  /** The number of chunks a text of len characters is cut into. */
  function ChunkCount(len: nat, step: nat): nat
    requires step > 0
  {
    (len + step - 1) / step
  }

  /** Chunk m exists exactly when it starts inside the text. */
  lemma ChunkCountBound(len: nat, step: nat, m: nat)
    requires step > 0
    ensures m < ChunkCount(len, step) <==> m * step < len
  {
    var n, r := (len + step - 1) / step, (len + step - 1) % step;
    assert len + step - 1 == n * step + r;
    if m < n {
      MulMonotone(m, n - 1, step);
      assert (n - 1) * step == n * step - step;
    } else {
      MulMonotone(n, m, step);
    }
  }

  /** Chunk k: the characters from k * step up to (k + 1) * step or the end. */
  function Chunk(s: string, step: nat, k: nat): string
    requires step > 0 && k < ChunkCount(|s|, step)
  {
    assert k * step < |s| by {
      ChunkCountBound(|s|, step, k);
    }
    s[k * step .. Min(k * step + step, |s|)]
  }

  /** Every chunk of s parses as a u64. */
  predicate ChunksParse(s: string, step: nat)
    requires step > 0
  {
    forall k :: 0 <= k < ChunkCount(|s|, step) ==> ParseU64(Chunk(s, step, k)).Some?
  }

  /** The parsed chunks of s. */
  ghost function ChunkValues(s: string, step: nat): (v: seq<nat>)
    requires step > 0 && ChunksParse(s, step)
    ensures |v| == ChunkCount(|s|, step)
  {
    seq(ChunkCount(|s|, step), k requires 0 <= k < ChunkCount(|s|, step) => ParseU64(Chunk(s, step, k)).value)
  }

  lemma ChunkValuesAt(s: string, step: nat, k: nat)
    requires step > 0 && ChunksParse(s, step) && k < ChunkCount(|s|, step)
    ensures ChunkValues(s, step)[k] == ParseU64(Chunk(s, step, k)).value
  {
  }

  /** Moving from chunk m to chunk m + 1 advances the start by step
      characters; the next chunk exists exactly when it starts inside the
      text. */
  lemma NextChunk(len: nat, step: nat, m: nat)
    requires step > 0 && m * step < len
    ensures m < ChunkCount(len, step)
    ensures (m + 1) * step == m * step + step
    ensures m * step + step < len <==> m + 1 < ChunkCount(len, step)
  {
    ChunkCountBound(len, step, m);
    MulSucc(m, step);
    ChunkCountBound(len, step, m + 1);
  }

  /** split_string: the chunks of s parsed one by one, from the left; a chunk
      that does not parse makes the unwrap panic, modelled as None. */
  method SplitString(s: string, step: nat) returns (r: Option<seq<Wide>>)
    requires step > 0
    ensures r.Some? <==> ChunksParse(s, step)
    ensures r.Some? ==> r.value == ChunkValues(s, step)
  {
    ghost var n := ChunkCount(|s|, step);
    var result: seq<Wide> := [];
    var i := 0;
    ChunkCountBound(|s|, step, 0);
    while i < |s|
      invariant i == |result| * step
      invariant |result| <= n
      invariant i < |s| <==> |result| < n
      invariant forall k :: 0 <= k < |result| ==>
        ParseU64(Chunk(s, step, k)).Some? && result[k] == ParseU64(Chunk(s, step, k)).value
      decreases |s| - i
    {
      var right := Min(i + step, |s|);
      assert s[i..right] == Chunk(s, step, |result|);
      var parsed := ParseU64(s[i..right]);
      if parsed.None? {
        return None;
      }
      NextChunk(|s|, step, |result|);
      result := result + [parsed.value];
      i := i + step;
    }
    forall k | 0 <= k < |result| ensures result[k] == ChunkValues(s, step)[k] {
      ChunkValuesAt(s, step, k);
    }
    return Some(result);
  }

  /** A chunk of a digit string is a nonempty digit string. */
  lemma DigitChunk(s: string, step: nat, k: nat)
    requires step > 0 && IsDigits(s) && k < ChunkCount(|s|, step)
    ensures 1 <= |Chunk(s, step, k)| <= step && IsDigits(Chunk(s, step, k))
  {
    ChunkCountBound(|s|, step, k);
    DigitsSlice(s, k * step, Min(k * step + step, |s|));
  }

  /** Every chunk of a digit string parses, to the number it denotes, when a
      chunk has at most 19 digits (10^19 < 2^64). */
  lemma DigitChunksParse(s: string, step: nat)
    requires IsDigits(s) && 1 <= step <= 19
    ensures ChunksParse(s, step)
    ensures forall k :: 0 <= k < ChunkCount(|s|, step) ==>
      IsDigits(Chunk(s, step, k)) && ParseU64(Chunk(s, step, k)) == Some(DecimalValue(Chunk(s, step, k)))
  {
    forall k | 0 <= k < ChunkCount(|s|, step)
      ensures IsDigits(Chunk(s, step, k)) && ParseU64(Chunk(s, step, k)) == Some(DecimalValue(Chunk(s, step, k)))
    {
      var t := Chunk(s, step, k);
      DigitChunk(s, step, k);
      assert ChunkDigits(t) == t;
      DecimalValueBound(t);
      PowMonotone(10, |t|, 19);
      Pow10Values();
    }
  }

  /** The width of chunk k of a text of len characters. */
  ghost function ChunkWidths(len: nat): (w: seq<nat>)
    ensures |w| == ChunkCount(len, 8)
  {
    seq(ChunkCount(len, 8), k => Min(k * 8 + 8, len) - k * 8)
  }

  /** Chunk k of a text has width between 1 and 8, 8 unless it is the last
      chunk, and a value below 10^8; for a digit string the value fits the
      width. */
  lemma ChunkShape(s: string, k: nat)
    requires ChunksParse(s, 8) && k < ChunkCount(|s|, 8)
    ensures 1 <= ChunkWidths(|s|)[k] <= 8 && ChunkValues(s, 8)[k] < Pow10(8)
    ensures k + 1 < ChunkCount(|s|, 8) ==> ChunkWidths(|s|)[k] == 8
    ensures IsDigits(s) ==> ChunkValues(s, 8)[k] < Pow10(ChunkWidths(|s|)[k])
  {
    var w := ChunkWidths(|s|);
    ChunkValuesAt(s, 8, k);
    ChunkCountBound(|s|, 8, k);
    ChunkCountBound(|s|, 8, k + 1);
    var t := Chunk(s, 8, k);
    assert |t| == w[k];
    var d := ChunkDigits(t);
    DecimalValueBound(d);
    PowMonotone(10, |d|, w[k]);
    PowMonotone(10, w[k], 8);
  }

  /** The true width of the last chunk of a text of len characters is len
      minus the characters of the chunks before it: at most eight, and the
      width ChunkWidths gives it. */
  lemma LastChunkWidth(len: nat)
    ensures var n := ChunkCount(len, 8);
      n > 0 ==> (n - 1) * 8 < len && len - (n - 1) * 8 <= 8
                && SizesAgree(len - (n - 1) * 8, ChunkWidths(len))
  {
    var n := ChunkCount(len, 8);
    if n > 0 {
      ChunkCountBound(len, 8, n - 1);
      ChunkCountBound(len, 8, n);
    }
  }

  /** The size from_string assumes for the last chunk of a text of len
      characters, len % 8, is that chunk's width exactly when the text has at
      most eight characters or a length that is not a multiple of eight. */
  lemma AssumedSizeAgrees(len: nat)
    ensures SizesAgree(len % 8, ChunkWidths(len)) <==> len <= 8 || len % 8 != 0
  {
    LastChunkWidth(len);
    ChunkCountBound(len, 8, 1);
  }

  /** The parsed chunks of a text, at the widths of its chunks, have the shape
      the long division expects; for a digit string the chunks fit their
      widths, and the size from_string assumes for the last chunk is its
      width exactly when the text has at most eight characters or a length
      that is not a multiple of eight. */
  lemma ChunkLayout(s: string)
    requires ChunksParse(s, 8)
    ensures Layout(ChunkValues(s, 8), ChunkWidths(|s|))
    ensures IsDigits(s) ==> Padded(ChunkValues(s, 8), ChunkWidths(|s|))
    ensures SizesAgree(|s| % 8, ChunkWidths(|s|)) <==> |s| <= 8 || |s| % 8 != 0
  {
    var c, w := ChunkValues(s, 8), ChunkWidths(|s|);
    forall k | 0 <= k < |c|
      ensures 1 <= w[k] <= 8 && c[k] < Pow10(8)
      ensures k < |c| - 1 ==> w[k] == 8
      ensures IsDigits(s) ==> c[k] < Pow10(w[k])
    {
      ChunkShape(s, k);
    }
    AssumedSizeAgrees(|s|);
  }

  /** Read at the widths of its chunks, the chunks of a digit string denote
      the string's number. */
  lemma ChunksDenoteString(s: string)
    requires IsDigits(s)
    ensures ChunksParse(s, 8)
    ensures DecimalOf(ChunkValues(s, 8), ChunkWidths(|s|)) == DecimalValue(s)
  {
    DigitChunksParse(s, 8);
    var n := ChunkCount(|s|, 8);
    ChunkPrefixValue(s, n);
    assert ChunkValues(s, 8)[..n] == ChunkValues(s, 8);
    assert ChunkWidths(|s|)[..n] == ChunkWidths(|s|);
    assert s[..|s|] == s;
  }

  /** A digit string's prefix of hi characters, read as its prefix of lo
      characters followed by the digits between lo and hi. */
  lemma DecimalValuePrefixes(s: string, lo: nat, hi: nat)
    requires IsDigits(s) && lo <= hi <= |s|
    ensures IsDigits(s[..lo]) && IsDigits(s[lo..hi]) && IsDigits(s[..hi])
    ensures DecimalValue(s[..hi]) == DecimalValue(s[..lo]) * Pow10(hi - lo) + DecimalValue(s[lo..hi])
  {
    DigitsSlice(s, 0, lo);
    DigitsSlice(s, lo, hi);
    DigitsSlice(s, 0, hi);
    var t := s[..hi];
    DecimalValueSplit(t, lo);
    assert t[..lo] == s[..lo];
    assert t[lo..] == s[lo..hi];
  }

  /** Chunk m - 1 of a digit string is the number written by its characters,
      and its width is their count. */
  lemma ChunkOfDigits(s: string, m: nat)
    requires IsDigits(s) && ChunksParse(s, 8) && 0 < m <= ChunkCount(|s|, 8)
    ensures (m - 1) * 8 < |s|
    ensures IsDigits(s[(m - 1) * 8..Min(m * 8, |s|)])
    ensures ChunkValues(s, 8)[m - 1] == DecimalValue(s[(m - 1) * 8..Min(m * 8, |s|)])
    ensures ChunkWidths(|s|)[m - 1] == Min(m * 8, |s|) - (m - 1) * 8
  {
    ChunkCountBound(|s|, 8, m - 1);
    DigitChunk(s, 8, m - 1);
    ChunkValuesAt(s, 8, m - 1);
    assert ChunkDigits(Chunk(s, 8, m - 1)) == Chunk(s, 8, m - 1);
  }

  /** One more chunk: if the first m - 1 chunks denote the string's first
      (m - 1) * 8 characters, the first m chunks denote its first m * 8
      characters (or all of them). */
  lemma ChunkPrefixStep(s: string, m: nat)
    requires IsDigits(s) && ChunksParse(s, 8) && 0 < m <= ChunkCount(|s|, 8)
    requires DecimalOf(ChunkValues(s, 8)[..m - 1], ChunkWidths(|s|)[..m - 1])
             == DecimalValue(s[..Min((m - 1) * 8, |s|)])
    ensures DecimalOf(ChunkValues(s, 8)[..m], ChunkWidths(|s|)[..m])
            == DecimalValue(s[..Min(m * 8, |s|)])
  {
    var c, w := ChunkValues(s, 8), ChunkWidths(|s|);
    var lo, hi := (m - 1) * 8, Min(m * 8, |s|);
    ChunkOfDigits(s, m);
    assert Min(lo, |s|) == lo;
    PrefixStep(c, w, m - 1);
    DecimalValuePrefixes(s, lo, hi);
  }

  /** The first m chunks of a digit string, read at their widths, denote the
      string's first m * 8 characters (or all of them). */
  lemma {:induction false} ChunkPrefixValue(s: string, m: nat)
    requires IsDigits(s) && ChunksParse(s, 8) && m <= ChunkCount(|s|, 8)
    ensures DecimalOf(ChunkValues(s, 8)[..m], ChunkWidths(|s|)[..m])
            == DecimalValue(s[..Min(m * 8, |s|)])
  {
    if m == 0 {
      assert ChunkValues(s, 8)[..0] == [] && ChunkWidths(|s|)[..0] == [];
    } else {
      ChunkPrefixValue(s, m - 1);
      ChunkPrefixStep(s, m);
    }
  }

  /** from_string: SplitString, then the long division with the size of the
      last chunk taken as the text's length modulo 8. A chunk that
      does not parse panics (None). A digit string always parses, and its
      limbs denote its number when its length is at most eight or not a
      multiple of eight; when the first pass leaves nothing to divide, the
      result is the one limb that pass produced, whatever the length. */
  method FromString(s: string) returns (r: Option<BigInt>)
    ensures r.Some? <==> ChunksParse(s, 8)
    ensures IsDigits(s) ==> r.Some?
    ensures r.Some? ==> 1 <= |r.value.data|
    ensures r.Some? && FirstPassValue(ChunkValues(s, 8), |s| % 8) < BASE ==>
      r.value.data == [FirstPassValue(ChunkValues(s, 8), |s| % 8)]
    ensures r.Some? && IsDigits(s) && (|s| <= 8 || |s| % 8 != 0) ==>
      Value(r.value.data) == DecimalValue(s) && Canonical(r.value.data)
  {
    if IsDigits(s) {
      ChunksDenoteString(s);
    }
    var split := SplitString(s, 8);
    if split.None? {
      return None;
    }
    ChunkLayout(s);
    var result := LongDivide(split.value, |s| % 8, ChunkWidths(|s|));
    return Some(result);
  }

  /** from_string with the size of the last chunk taken as its true width,
      the length of the text minus the characters of the chunks before it. */
  method FromStringCorrected(s: string) returns (r: Option<BigInt>)
    ensures r.Some? <==> ChunksParse(s, 8)
    ensures r.Some? ==> 1 <= |r.value.data|
    ensures IsDigits(s) ==> r.Some? && Value(r.value.data) == DecimalValue(s) && Canonical(r.value.data)
  {
    if IsDigits(s) {
      ChunksDenoteString(s);
    }
    var split := SplitString(s, 8);
    if split.None? {
      return None;
    }
    var chunks := split.value;
    LastChunkWidth(|s|);
    var lastSize := if |chunks| == 0 then 0 else |s| - (|chunks| - 1) * 8;
    ChunkLayout(s);
    var result := LongDivide(chunks, lastSize, ChunkWidths(|s|));
    return Some(result);
  }
}
