# jsr-uid in Dafny

A model of a small 64-bit unique-id generator in the style of Snowflake ids.
An id packs, most significant first, the low 39 bits of a millisecond
timestamp, a 4-bit application tag, an 11-bit worker tag and a 10-bit
per-millisecond counter, and travels as decimal text. The model has three
parts, one module per source file:

- `Config` (src/cfg.ts): the state store `cfg`, a class `Cfg` whose fields are
  the two tags, `lastId`, `lastTs`, `counter` and the floor `minTs`. The
  `appId` and `workerId` setters scale a fraction below 1 with `Math.round`
  and reduce any other value modulo the field size (`ScaleOrWrap`).
- `Encoder` (src/uid.ts): `Uid(cfg, now)` refuses `now < minTs` without
  touching the state, otherwise advances or resets the counter, records
  `lastTs` and `lastId`, and returns the id as decimal text. The packing
  expression is kept as written, with bitwise OR (`PackAsWritten`), and is
  proved equal to the arithmetic layout `Pack`.
- `Decoder` (src/extract.ts): `Extract(uid)`, a pure function of its
  argument that reads no `cfg` state. It follows the source's text pipeline:
  decimal parse, `toString(2)`, `padStart(64, "0")`, the 39/4/11/10 split
  and `parseInt(_, 2)` with the bits `11` put back in front of the timestamp
  run.

Helper modules: `Results` (Option/Result), `Bits` (powers of two, bitwise OR
and right shift on naturals, division facts), `Decimal` (BigInt decimal
`toString()` and parse) and `Binary` (`toString(2)`, `padStart`,
`parseInt(_, 2)`).

The central results are `Encoder.RoundTrip`, which says that for
3·2^39 ≤ now < 2^41 (the era in which the two top bits of a 41-bit
millisecond timestamp are `11`, roughly April 2022 to September 2039) and a
counter below 1024 the decoder returns exactly the timestamp, tags and
counter that went in, and `Decoder.ExtractNatFields`, which says the
string pipeline computes plain division and remainder for every id below
2^64.

At the edges the model keeps the code's behaviour:

- The setters take the rounding branch for every value below 1; for 0 both
  rounding and wrapping give 0.
- The round trip restores `now` only inside the era above; outside it the
  decoder returns `3·2^39 + (now mod 2^39)` (`Encoder.ExtractOfPack`).
- The decoder does not reject ids of 2^64 or more: the split takes their top
  64 binary digits, and `Decoder.ExtractNat` models that.
- There is no counter overflow policy: the counter is an unbounded natural,
  and `Encoder.CounterOverflow` shows the 1025th id of a millisecond carrying
  into the worker field.

## Model

| member | source | states |
|---|---|---|
| `Config.ScaleOrWrap` | src/cfg.ts:13-17 | the stored tag is in 0..bits; for an integral input it is the input modulo bits + 1; for a fraction it is within half a unit of fraction × bits (Math.round) |
| `Config.Round` | src/cfg.ts:16 | `Math.round(x)` lies within half a unit of x, halves rounded up |
| `Config.InRangeTagKept` | src/cfg.ts:16 | an integer that already fits the field is stored exactly as given |
| `Config.TagExamples` | src/cfg.ts:16 | 0.999999 scales to tag 15; 20 wraps to 4 |
| `Config.Cfg.constructor` | src/cfg.ts:1-8 | initial state: both tags 0, lastId 0, lastTs 0, counter 0, minTs the given start time |
| `Config.Cfg.SetAppId` | src/cfg.ts:13-17 | stores ScaleOrWrap(id, 15) in appId, keeps the tag in range, changes no other field |
| `Config.Cfg.SetWorkerId` | src/cfg.ts:22-26 | stores ScaleOrWrap(id, 2047) in workerId, keeps the tag in range, changes no other field |
| `Config.Cfg.SetMinTs` | src/sync.ts:20 | stores the new floor in minTs and changes no other field |
| `Encoder.Uid` | src/uid.ts:16-34 | below the floor: ClockRegression and counter, lastTs, lastId unchanged; otherwise counter + 1 at the same ms and 0 on a new one, lastTs = now, lastId = the packed id, result its decimal text; tags and minTs never change |
| `Encoder.Low39` | src/uid.ts:25-26 | the masked timestamp run is below 2^39 |
| `Encoder.PackAsWrittenIsPack` | src/uid.ts:25-30 | with tags in range the OR-then-add expression equals the sum of the shifted fields |
| `Encoder.Pack` | src/uid.ts:25-30 | with tags in range and counter below 1024 the id is below 2^64; `Encoder.ExtractOfPack` shows the decoder takes its four fields back out |
| `Encoder.PackAsWritten` | src/uid.ts:25-30 | the OR-then-add expression never exceeds the sum of the shifted fields; `Encoder.PackAsWrittenIsPack` shows it equals that sum when the tags fit |
| `Bits.Or` | src/uid.ts:30 | the bitwise OR of two naturals is at least each of them and at most their sum; `Bits.OrDisjoint` shows it is the sum of x·2^k and y when y < 2^k |
| `Encoder.ExtractOfPack` | src/extract.ts:17-20 | decoding a packed id returns the tags and counter unchanged and 3·2^39 + (now mod 2^39) as timestamp |
| `Encoder.EraTimestamp` | src/uid.ts:23-24 | for 3·2^39 ≤ now < 2^41, restoring the prefix `11` gives back now |
| `Encoder.RoundTrip` | src/uid.test.ts:6-16 | Extract of the decimal id returns exactly (now, appId, workerId, counter) inside the era |
| `Encoder.CounterOverflow` | src/uid.ts:21 | counter 1024 decodes as the next worker tag with counter 0 |
| `Encoder.SameMillisecondIds` | src/uid.test.ts:6-16 | from a fresh state with both tags set, two ids in one ms are consecutive numbers and decode to counters 0 and 1 with tags and now intact |
| `Decoder.Extract` | src/extract.ts:11-28 | fails exactly when the text is not a decimal number; otherwise returns the split of its value |
| `Decoder.Fields` | src/extract.ts:14-20 | the timestamp is the prefix `11` read over the 39-bit run, so 3·2^39 ≤ timestamp < 2^41; appId < 16, workerId < 2048, counter < 1024; `Decoder.ExtractNatFields` gives the runs their arithmetic meaning |
| `Decoder.ExtractNat` | src/extract.ts:13-20 | for every value: 3·2^39 ≤ timestamp < 2^41, appId < 16, workerId < 2048, counter < 1024 |
| `Decoder.ExtractNatFields` | src/extract.ts:13-20 | for an id below 2^64: timestamp = 3·2^39 + id div 2^25, appId = (id div 2^21) mod 16, workerId = (id div 2^10) mod 2048, counter = id mod 1024 |
| `Decoder.PaddedRuns` | src/extract.ts:13-15 | the padded text of an id below 2^64 is its 39/4/11/10-bit runs in order |
| `Binary.PadToFixedBits` | src/extract.ts:13 | padding `toString(2)` of n < 2^k to width k gives exactly the k low bits of n, so leading zero bits keep their places |
| `Binary.PadStart` | src/extract.ts:13 | result length is max(width, length); the input is its suffix; the fill is zeros |
| `Binary.ToBinary` | src/extract.ts:13 | `toString(2)` yields at least one binary digit |
| `Binary.SplitFixedBits` | src/extract.ts:14-15 | j + k bits of n are the j bits above position k followed by the k low bits |
| `Binary.ParseFixedBits` | src/extract.ts:17-20 | parsing the k fixed bits of n gives n mod 2^k |
| `Binary.ParseAppend` | src/extract.ts:17 | parsing a + b gives parse(a) · 2^len(b) + parse(b), so the prefix `11` adds 3·2^39 |
| `Binary.ParseBinary` | src/extract.ts:18-20 | a run of k binary digits parses below 2^k |
| `Decimal.NatToString` | src/uid.ts:33 | `toString()` yields digits only, with no leading zero except for 0 |
| `Decimal.StringToNat` | src/extract.ts:12 | a text is read as a number exactly when it is a plain digit string; `Decimal.ParseOfPrint` and `Decimal.PrintOfParse` make it the inverse of printing |
| `Decimal.ParseOfPrint` | src/extract.ts:12 | parsing the decimal text of n gives n back |
| `Decimal.PrintOfParse` | src/extract.ts:12 | a canonical digit string is exactly the text printed for its value |

## Left out

- I/O and clocks: `Date.now()` as the default argument of `uid` and as the initial `minTs` becomes the parameters `now` and `startTs`.
- Config.Cfg.constructor: the module's default assignments `cfg.appId = Math.random()` and `cfg.workerId = Math.random()` are nondeterministic; the constructor leaves both tags at their declared 0, and a caller reproduces the default by calling the setter with the fraction.
- The `appId` and `workerId` getters: the class exposes the fields they return; every setter's contract says what the field holds afterwards.
- Config.Cfg.SetAppId: requires a non-negative input, an integer when it is 1 or more. A negative input takes the rounding branch: below −1/30 it stores a negative tag outside the 4-bit field, and from −1/30 up to 0 it stores −0, which packs as 0; the requires excludes all negatives. For a non-integer such as 1.5 it stores `1.5 % 16`, later truncated by the 32-bit `<<`. Neither case is followed into the encoder.
- Config.Cfg.SetWorkerId: the same input restrictions as SetAppId, for the 11-bit field; a negative tag is stored below −1/4094, and −0 from there up to 0.
- Encoder.Uid: `now` is an integer. A non-integer or NaN `now` passes the `now < minTs` guard, src/uid.ts:21-22 write counter and lastTs, and then `BigInt(now)` at line 26 throws a RangeError with lastId untouched; that partial update is not modelled.
- Config.ScaleOrWrap: `Math.round(id * bits)` is computed on exact reals as floor(x + 1/2); floating-point rounding of the product is not modelled.
- Decimal.StringToNat: reads plain digit strings only; a leading `+` or `-`, surrounding whitespace and the `0x`/`0o`/`0b` prefixes that BigInt also accepts give None.
- Decoder.Extract: only plain digit strings parse (the empty string as 0, as with BigInt); a sign, surrounding whitespace and the `0x`/`0o`/`0b` prefixes that BigInt also accepts are reported as NotANumber. The source's results for a negative id are not modelled: for a small one such as `-5` the regex finds no match and it returns timestamp 3 (`parseInt("11undefined", 2)`) with NaN appId, workerId and counter, and for one of magnitude 2^63 or more (64 binary digits after the `-`) it returns numbers read from the digits after the `-`.
- JavaScript number semantics: the 32-bit `<<` on the tags and the 53-bit precision of `now` and of `parseInt` results are exact for in-range values and are treated as unbounded integers.
- src/sync.ts: the HTTP fetch of the remote time, its regex scrape and float rounding are not part of this model; only the assignment `cfg.minTs = minTs` is, as `SetMinTs`.
- lab/random.ts and lab/count-uid-per-ms.ts are console demonstrations with no behaviour of the generator.
- Concurrency: the source is single-threaded and the model is sequential.
- The error message text of `uid`, which formats dates: the error carries `now` and `minTs` instead.
