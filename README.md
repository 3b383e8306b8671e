# bigint: the `optimized_memory` arbitrary-precision integers

This project models the `optimized_memory` module of the `bigint` crate
(`src/lib.rs`). There a natural number is a `BigInt`: a vector of `u32`
limbs in radix 2^32, least significant limb first. Trailing zero limbs are
allowed, so one number has many representations.

The module's operations:

- `zero`: the empty vector.
- `get`: a limb, or 0 past the end.
- `eq`: limb-by-limb comparison up to the longer length, with missing limbs read as 0.
- `sum`: column addition with a 0/1 carry.
- `atomic_product`: a number times one limb, with a `u64` carry.
- `product`: schoolbook multiplication, summing shifted rows and skipping zero limbs.
- `from_string`: decimal parsing. It does the following:
  - `split_string` cuts the text into chunks of `PARSE_STEP` = 8 characters, each parsed as a `u64`.
  - The chunks are divided by 2^32 again and again, like long division on paper. Each pass yields one limb, the final carry.
  - Within a pass, `apply_carry` glues the carry of the previous chunk in front of the next chunk. It first pads that chunk back to its original width.
  - `all_zero` stops the loop once every chunk is zero.

The Dafny modules follow that structure:

- `Arith`: powers, `Max`/`Min` and small lemmas about division and multiplication.
- `Limbs`:
  - the `BigInt` datatype over `seq<Limb>` (`Limb` = naturals below 2^32, `Wide` = below 2^64);
  - the number a vector denotes (`Value`);
  - `Zero`, `Get` and `Eq`.
- `Addition`: `sum`, as a method with its loop.
- `Multiplication`: `atomic_product` and `product`, as methods with their loops.
- `Decimal`:
  - `apply_carry` and `all_zero`;
  - one division pass (`DividePass`);
  - the outer division loop (`LongDivide`);
  - the arithmetic of chunk sequences read as padded decimal numerals (`DecimalOf`).
- `Parse`:
  - `split_string`;
  - `from_string` as written;
  - a corrected `from_string` (see Findings).
- `Literals`: the numbers written by the long digit strings of the tests, evaluated ten digits at a time.
- `Scenarios`:
  - the crate's unit tests, restated as contracts;
  - the algebraic laws `sum` and `product` obey;
  - the input that exposes the defect.

Each method is proved against the number its inputs denote:

- The sum denotes the sum of the numbers.
- The product denotes their product.
- The corrected parse of any digit string denotes the string's decimal value, with no trailing zero limbs.
- `from_string` as written is proved to do so when the string has at most 8 digits or a length that is not a multiple of 8. For other lengths it can be wrong (see Findings).

Machine-width limits appear as the subset types `Limb` and `Wide`. So every intermediate value the source stores in a `u32` or `u64` is proved to fit.

## Model

| member | source | states |
|---|---|---|
| Limbs.Zero | src/lib.rs:20-22 | the empty vector denotes 0 |
| Limbs.Get | src/lib.rs:78-84 | `get(i)` is digit i of the number in radix 2^32, that is 0 at every index past the end |
| Limbs.Eq | src/lib.rs:87-97 | `eq` holds exactly when `get` agrees at every index, not only below the longer length |
| Limbs.ValueTrailingZeros | src/lib.rs:11-14 | appending zero limbs does not change the number a vector denotes |
| Limbs.EqIffSameValue | src/lib.rs:87-97 | two vectors are `eq` exactly when they denote the same number, in both directions |
| Limbs.EqUnfold | src/lib.rs:87-97 | `eq` holds exactly when the lowest limbs agree (0 for an empty vector) and the remaining limbs are `eq` |
| Limbs.EqEquivalence | src/lib.rs:87-99 | `eq` is reflexive, symmetric and transitive, as the `Eq` impl asserts |
| Limbs.EqTrailingZeros | src/lib.rs:87-97 | a vector is `eq` to itself extended with zero limbs |
| Addition.SumStep | src/lib.rs:105-114 | one column of `sum`: pushing the column digit and keeping the carry preserves "pushed limbs plus carry times 2^(32·i) = sum of the first i limbs of both operands" |
| Addition.Sum | src/lib.rs:101-121 | the result denotes the sum of the operands; it has max(len) limbs, plus one final limb equal to 1 exactly when the sum needs it |
| Multiplication.DigitProductFits | src/lib.rs:141 | a limb times a limb plus a limb carry fits in a `u64` |
| Multiplication.AtomicProduct | src/lib.rs:137-151 | the result denotes b1 times the limb d; it has one limb per limb of b1, plus one nonzero carry limb exactly when the product needs it |
| Multiplication.ValueShift | src/lib.rs:128-129 | prefixing i zero limbs multiplies the number by 2^(32·i) |
| Multiplication.ProductBound | src/lib.rs:123-135 | the product of an m-limb and an n-limb number fits in m+n limbs |
| Multiplication.ProductStep | src/lib.rs:126-131 | adding the shifted row for limb i of b2 turns the product with the first i limbs of b2 into the product with the first i+1 limbs, within len(b1)+i+1 limbs |
| Multiplication.Product | src/lib.rs:123-135 | the result denotes the product of the operands, has at most len(b1)+len(b2) limbs, and is empty when every limb of b2 is zero |
| Decimal.Digits | src/lib.rs:57 | the length of `u.to_string()`: the least k ≥ 1 with u < 10^k |
| Decimal.DecimalString | src/lib.rs:57 | `to_string` of n: Digits(n) decimal digits, no leading zero unless n = 0, that parse back to n |
| Decimal.DecimalValueConcat | src/lib.rs:59 | the text a followed by b parses to value(a)·10^len(b) + value(b) |
| Decimal.GluedValue | src/lib.rs:59 | carry text, k zero characters and u's text parse to carry·10^(k+len(u)) + u |
| Decimal.GluedText | src/lib.rs:58-63 | the text `apply_carry` glues in either branch is a digit string |
| Decimal.GluedTextValue | src/lib.rs:58-63 | the glued text parses to carry·10^max(original_size, len(u's text)) + u, in both branches |
| Decimal.ApplyCarry | src/lib.rs:56-65 | parsing the text glued from `carry.to_string()`, the zero padding and `u.to_string()` gives carry·10^max(original_size, digits(u)) + u |
| Decimal.ApplyCarryPadsToSize | src/lib.rs:56-65 | when u fits in original_size digits, gluing the carry in front of u padded to original_size digits gives carry·10^original_size + u |
| Decimal.ApplyCarryFits | src/lib.rs:56-65 | with a carry below 2^32 and a chunk of at most 8 digits the glued number stays below 2^32·10^8, which is below 2^64, so `.parse::<u64>().unwrap()` cannot fail |
| Decimal.CheckAllZero | src/lib.rs:68-76 | returns true exactly when every element is zero |
| Decimal.AllZeroIffZero | src/lib.rs:47-49 | the chunks are all zero exactly when the padded decimal numeral they spell is 0 |
| Decimal.DivideChunk | src/lib.rs:31-43 | one step of a pass: quotient·2^32 + remainder equals the carry glued before the chunk, and the quotient fits in the chunk's width |
| Decimal.DividePass | src/lib.rs:29-45 | the numeral the chunks spell at the widths the pass uses equals the quotients' numeral times 2^32 plus the final carry, and the quotients stay below 10^8; when they are not all zero, the chunk sequence read with all widths 8 strictly decreases, so the outer loop ends |
| Decimal.PassDecreases | src/lib.rs:28-51 | the measure behind the outer loop's termination: a pass that leaves a nonzero chunk makes the all-widths-8 numeral strictly smaller |
| Decimal.RepadOrder | src/lib.rs:28-51 | the order of two chunk sequences read at the same widths (all 8 but the last) is kept when they are re-read with every width 8 |
| Decimal.SoundPass | src/lib.rs:29-45 | when the widths a pass uses are the chunks' true widths, the pass divides the numeral at those widths by 2^32 and its quotients stay padded to those widths |
| Decimal.SameWidths | src/lib.rs:32-36 | for two or more chunks padded to their true widths, where the last chunk's assumed size agrees, the widths a pass uses are the true widths |
| Decimal.PassOutcome | src/lib.rs:46-49 | a pass leaves all chunks zero exactly when the numeral was below 2^32, and then the pushed carry is that numeral |
| Decimal.PushLimb | src/lib.rs:46 | pushing the carry as the next limb keeps "limbs pushed + 2^(32·count)·remaining numeral = original numeral" |
| Decimal.SoundContinue | src/lib.rs:28-51 | when the widths are the true widths, one more pass and push keep the limbs-plus-remaining equation and the padding |
| Decimal.OuterContinue | src/lib.rs:28-51 | one pass followed by a push, when the loop does not stop, keeps the outer loop's invariant |
| Decimal.OuterFinish | src/lib.rs:46-51 | when the loop stops: a first-pass numeral below 2^32 gives exactly that one limb, and with true widths the limbs denote the whole numeral with no trailing zero limb |
| Decimal.LongDivide | src/lib.rs:27-52 | the outer loop yields at least one limb, a single limb when the first pass's numeral is below 2^32, and the numeral the chunks spell, with no trailing zero limb, when the chunks are padded to their true widths and the last one's assumed size agrees |
| Parse.ParseU64 | src/lib.rs:158 | `parse::<u64>`: Some(value) exactly when, after at most one leading '+', the text is a non-empty digit string whose value is below 2^64; `None` (the panic) for an empty digit part or any other character |
| Parse.ChunkCountBound | src/lib.rs:156-160 | chunk m exists exactly when m·step < len |
| Parse.NextChunk | src/lib.rs:156-160 | advancing i by step from a chunk start yields the next chunk exactly when the loop condition still holds |
| Parse.SplitString | src/lib.rs:153-162 | returns a value exactly when every chunk parses as a `u64`, and then returns the chunk values in order |
| Parse.DigitChunksParse | src/lib.rs:153-162 | for a digit string and a step of at most 19 every chunk parses, and to its decimal value |
| Parse.ChunkShape | src/lib.rs:156-158 | every chunk has 1 to 8 characters, 8 except the last, and its value is below 10^8 |
| Parse.LastChunkWidth | src/lib.rs:32-33 | the last chunk is len − 8·(n−1) characters long, and that size agrees with the chunks' true widths |
| Parse.AssumedSizeAgrees | src/lib.rs:32-33 | the size `s.len() % PARSE_STEP` agrees with the last chunk's true width exactly when len ≤ 8 or len is not a multiple of 8 |
| Parse.ChunkLayout | src/lib.rs:153-162 | the chunk values are below 10^8 with widths 8 except the last, padded to their widths for a digit string, and the as-written size agrees exactly when len ≤ 8 or len % 8 ≠ 0 |
| Parse.ChunkPrefixValue | src/lib.rs:153-162 | the first m chunks, read at their widths, spell the value of the first min(8m, len) digits |
| Parse.ChunksDenoteString | src/lib.rs:153-162 | the chunks of a digit string, read at their widths, spell the string's decimal value |
| Parse.FromString | src/lib.rs:25-53 | `from_string` as written: a result exactly when every chunk parses; at least one limb; a single limb when the first pass's numeral is below 2^32; the string's decimal value with no trailing zero limb when the length is at most 8 or not a multiple of 8 |
| Parse.FromStringCorrected | src/lib.rs:25-53 | `from_string` with the last chunk's size taken as len − 8·(n−1): a result exactly when every chunk parses, and for every digit string the decimal value with no trailing zero limb |
| Scenarios.EqExamples | src/lib.rs:204-205 | [342,0,0,0] == [342,0] and [0,342,0,0] != [342,0,0] |
| Scenarios.ShortStringsScenario | src/lib.rs:199-211 | parsing "" equals [0,0] and zero(); parsing "342" equals [342] and [342,0,0]; parsing "4" equals [4] |
| Scenarios.FromStringTest | src/lib.rs:209-238 | a digit string whose length is at most 8 or not a multiple of 8 parses to any vector that denotes its decimal value |
| Scenarios.FromStringScenario | src/lib.rs:212-238 | parsing "4294967295", "4294967296", "922337203685477580", "9223372036854775803949" and "42949672963434342343243324343232890890" equals [4294967295], [0, 1], [3435973836, 214748364], [4294963245, 4294967295, 499] and [3461744650, 2330743505, 1228788904, 542101086] |
| Scenarios.SumScenario | src/lib.rs:244-256 | sum([2^32−1, 1], [1, 1, 1]) equals [0, 3, 1] |
| Scenarios.SumStringsScenario | src/lib.rs:257-263 | the parse of "683598743919434280434619734254544588" equals the sum of the parses of "683598349590386730945834985730495834" and "394329047549488784748524048754" |
| Scenarios.SumCommutes | src/lib.rs:101-121 | sum(a, b) equals sum(b, a) |
| Scenarios.SumAssociates | src/lib.rs:101-121 | sum(sum(a, b), c) equals sum(a, sum(b, c)) |
| Scenarios.SumZero | src/lib.rs:101-121 | sum(a, zero()) equals a |
| Scenarios.ProductCommutes | src/lib.rs:123-135 | product(a, b) equals product(b, a) |
| Scenarios.ProductZero | src/lib.rs:123-135 | product(a, zero()) is zero(), with no limbs |
| Scenarios.ProductOne | src/lib.rs:123-135 | product(a, from_string("1")) equals a |
| Scenarios.Doubling | src/lib.rs:123-135 | product(from_string("2"), a) equals sum(a, a) |
| Scenarios.ParseRejects | src/lib.rs:158 | `from_string("12a3")` fails: its one chunk does not parse as a `u64` |
| Scenarios.ProductScenario | src/lib.rs:275-287 | product([35454, 2], [2^32−1, 4, 1]) equals [4294931842, 177267, 35464, 2] |
| Scenarios.PaddingDefect | src/lib.rs:32-33 | "1000000000000000" denotes 10^15, but the first pass as written reads its chunks as 10^8 |
| Scenarios.PaddingDefectScenario | src/lib.rs:25-53 | `from_string("1000000000000000")` as written returns [100000000], not 10^15 |
| Scenarios.PaddingCorrectedScenario | src/lib.rs:25-53 | the corrected parse of the same string denotes 10^15 |

## Left out

- The `easy` module and its tests are not part of this model. Neither are the benches, the `#[cfg(test)]` harness or the derive attributes.
- Rust's string machinery (`to_string`, `repeat`, `+`, `parse`) is modelled by the numbers it produces. `Digits` stands for `u.to_string().len()`. `DecimalString` stands for `to_string` and `DecimalValue` for the number a digit string parses to.
- A chunk that is not a valid `u64` makes the source panic at `.parse().unwrap()`. Here it yields `None`.
  - As Rust's `u64::from_str` does, the model accepts one leading `+`.
  - Slicing a non-ASCII string off a character boundary also panics in the source. The model works on characters, not UTF-8 bytes.
- `Vec` pushes and in-place updates of `chunks[i]` are modelled as sequence values that the methods reassign. No aliasing is involved in the source.
- Limbs.Eq: `eq`'s early-returning loop is a quantified predicate over the indices below the longer length, not a method.
- The source gives no termination argument for the outer loop. The model proves termination through the order of the chunks read with every width 8 (`PassDecreases`).
- Parse.FromString: it proves the decimal value only when the length is at most 8 or not a multiple of 8. For the other lengths the source as written can be wrong (see Findings).
- Not restated:
  - the third `sum` test (src/lib.rs:264-267);
  - the second `product` test (src/lib.rs:288-290).

  Both use the 48-digit operand "111111111111111111111111111111111123432342342111". Its length is a multiple of 8, so the contract of `FromString` as written gives no value for it. Restating these tests would mean running the division passes of `from_string` on its six chunks inside a proof, along with evaluating literals of up to 97 digits. Each digit of a literal costs a proof step of its own (module `Literals`).

## Findings

| source | as written | input that shows it | evidently intended | confidence | as-written member | corrected member |
|---|---|---|---|---|---|---|
| src/lib.rs:32-33 | the last chunk's original size is `s.len() % PARSE_STEP`, which is 0 when the length is a multiple of 8 | `from_string("1000000000000000")`: the chunks 10000000 and 00000000 are read as 10^7 followed by a one-digit 0, so the result is [100000000], not 10^15 | the width of the last chunk, `s.len() - PARSE_STEP * (chunks.len() - 1)` | not executed | Scenarios.PaddingDefectScenario | Parse.FromStringCorrected |
