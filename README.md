# EazyStart core, modelled in Dafny

EazyStart is a small C library of conveniences for beginners' programs: a
pseudo-random number engine, timespec arithmetic and a named-benchmark
table, and line-based console input. This project models the logic of four
of its source files and proves what they promise:

- `random.c`: the engine keeps a seed, four xoshiro256** state words and a
  lazy-initialisation flag. Seeding tries the OS generator, the performance
  counter, the wall clock and a fixed fallback, in that order. The state is
  expanded from the seed with splitmix64. Every draw steps xoshiro256**.
  Integer samplers map a draw to `[min, max]` by rejection sampling over
  whole blocks of `range + 1` outcomes (modules `Xoshiro`, `RandomRange`,
  `Random`, with the C integer types in `CInt`).
- `clock.c`: addition and subtraction of normalised `timespec` values, as
  pure functions and as in-place updates (module `Clock`).
- `benchmark.c`: a table from names to entries. `start` and `end` drive a
  per-name idle/running state machine. `end` records the run's duration
  into the count, minimum, maximum and sum. `clear` empties the table. The
  statistics are refused for an entry with no runs (module `Benchmark`).
- `input.c`: a read line is cut at its newline. The first non-whitespace
  character is located. A numeric line is accepted or rejected from what
  the C conversion function reports. `char` and `bool` lines are classified
  (module `Input`).

Each C `uint64_t` word is a `bv64`, so it wraps modulo 2^64 as in C. The
values of the C integer types are mathematical integers with explicit
conversions (`CInt.ToType`, `CInt.ToU64`). The file-scope state of
`random.c` becomes the fields of the class `Random.Engine`. The benchmark
table becomes the class `Benchmark.Benchmarks`, with a ghost history of
the durations recorded for each name. That history is the reference the
entries are proved against.

## Model

| member | source | states |
|---|---|---|
| Clock.Add | EazyStart/src/time/clock.c:62-72 | the sum of two normalised timespecs is normalised, its total nanoseconds are the sum of theirs, and its seconds carry exactly one extra second when the nanoseconds reach 10^9 |
| Clock.Sub | EazyStart/src/time/clock.c:83-93 | the difference is normalised, its total nanoseconds are the difference of theirs, and one second is borrowed exactly when the nanoseconds would go negative |
| Clock.SubAddCancel | EazyStart/src/time/clock.c:62-93 | subtracting b after adding b gives back a |
| Clock.AddSubCancel | EazyStart/src/time/clock.c:62-93 | adding b after subtracting b gives back a |
| Clock.AddZero | EazyStart/src/time/clock.c:62-72 | the zero timespec is a two-sided identity of addition |
| Clock.NormalisedUnique | EazyStart/include/EazyStart/time/clock.h:30-35 | a normalised timespec is determined by its total nanoseconds, so the results of Add and Sub are the only normalised answers |
| Clock.Compare | EazyStart/include/EazyStart/time/clock.h:70-72 | the comparison is -1, 0 or 1, and 0 exactly for equal timespecs |
| Clock.CompareMatchesNanos | EazyStart/include/EazyStart/time/clock.h:70-72 | the comparison is negative, positive or zero exactly when the first duration is shorter than, longer than or equal to the second |
| Clock.TimespecCell.AddEq | EazyStart/src/time/clock.c:74-81 | the in-place addition leaves the cell holding Add of its old value and the argument |
| Clock.TimespecCell.SubEq | EazyStart/src/time/clock.c:95-102 | the in-place subtraction leaves the cell holding Sub of its old value and the argument |
| CInt.ToType | EazyStart/include/EazyStart/tools/random.h:37-52 | a conversion to a C integer type yields a value of that type congruent to the input modulo 2^width |
| CInt.ToTypeCongruent | EazyStart/include/EazyStart/tools/random.h:37-52 | inputs congruent modulo 2^width convert to the same value |
| Xoshiro.SplitMix64Next | EazyStart/src/tools/random.c:114-120 | the accumulator advances by the golden constant and the output is the mix of the new accumulator |
| Xoshiro.SplitMixOutputZero | EazyStart/src/tools/random.c:114-120 | the splitmix64 mix yields 0 exactly for the accumulator 0, as each xor-shift and each multiplication by an odd constant can be undone |
| Xoshiro.ExpandSeed | EazyStart/src/tools/random.c:123-129 | the state expanded from any seed is never all zero, since two successive accumulators differ by the non-zero golden constant |
| Xoshiro.Output | EazyStart/src/tools/random.c:142 | the returned word is 0 exactly when s[1] is 0 |
| Xoshiro.StepNonZero | EazyStart/src/tools/random.c:143-149 | one step of the state update maps the all-zero state, and only it, to all zero |
| Xoshiro.IterateNonZero | EazyStart/src/tools/random.c:137-151 | a generator that does not start all zero never reaches the all-zero state |
| Xoshiro.RotlRotates | EazyStart/src/tools/random.c:132-134 | rotl by 7 and by 45 are true 64-bit rotations |
| Xoshiro.ScrambleIsProduct | EazyStart/src/tools/random.c:142 | the scrambler used by the model is `rotl(s[1] * 5, 7) * 9` with wrapping products |
| Xoshiro.ZeroIsFixed | EazyStart/src/tools/random.c:137-151 | the all-zero state steps to itself and outputs 0 |
| Xoshiro.ZeroStaysZero | EazyStart/src/tools/random.c:137-151 | from the all-zero state every later state is all-zero and every draw is 0 |
| Xoshiro.IterateAdd | EazyStart/src/tools/random.c:137-151 | a + b steps of random_next are a steps followed by b steps |
| Xoshiro.DrawsAt | EazyStart/src/tools/random.c:137-151 | word k of the output stream is the output of the state after k steps |
| Xoshiro.DrawsSplit | EazyStart/src/tools/random.c:137-151 | the stream of a + b draws is the first a draws followed by the stream from the state reached after them |
| RandomRange.ThresholdIsRemainder | EazyStart/src/tools/random.c:232-233 | the threshold `-num_outcomes % num_outcomes` is 2^64 mod (range + 1) |
| RandomRange.LimitIsWholeBlocks | EazyStart/src/tools/random.c:232-234 | the draws 0..limit are a whole number of blocks of range + 1 outcomes, and limit is at least range |
| RandomRange.Reduce | EazyStart/src/tools/random.c:240 | the reduced draw lies in [0, range] |
| RandomRange.EveryOutcomeReachable | EazyStart/src/tools/random.c:232-240 | every outcome r in [0, range] is produced by an accepted draw, namely r itself |
| RandomRange.EachOutcomeEquallyOften | EazyStart/src/tools/random.c:232-240 | the draws that reduce to an outcome r are b * n + r, and such a draw is accepted exactly when its block b is below the number of whole blocks, so every outcome is produced by the same number of accepted draws |
| RandomRange.Threshold | EazyStart/src/tools/random.c:233 | the number of rejected top values is at most range |
| RandomRange.Limit | EazyStart/src/tools/random.c:234 | the acceptance limit lies between UINT64_MAX - range and UINT64_MAX |
| RandomRange.InclusiveRange | EazyStart/src/tools/random.c:282 | the unsigned range is a uint64_t value congruent to max - min modulo 2^64 |
| RandomRange.ExclusiveRange | EazyStart/src/tools/random.c:289 | the unsigned range is a uint64_t value congruent to max - 1 - min modulo 2^64 |
| RandomRange.Offset | EazyStart/src/tools/random.c:283 | the corrected sampler result is a value of the type congruent to min + v modulo 2^width |
| RandomRange.AsWrittenOffset | EazyStart/src/tools/random.c:283 | the sum as written, when defined, is a value of the type; it is undefined only for signed types of 32 bits or more |
| RandomRange.InclusiveRangeIsDistance | EazyStart/src/tools/random.c:282 | for in-type min <= max, the unsigned difference `(uint64_t)max - (uint64_t)min` is exactly max - min |
| RandomRange.ExclusiveRangeIsDistance | EazyStart/src/tools/random.c:289 | for in-type min < max, `((uint64_t)max - 1) - (uint64_t)min` is exactly max - 1 - min |
| RandomRange.OffsetLands | EazyStart/include/EazyStart/tools/random.h:37-52 | adding an offset in unsigned arithmetic and converting back yields min + offset whenever that fits the type |
| RandomRange.CharFullRangeIsDefined | EazyStart/src/tools/random.c:282-283 | for char, signed or unsigned, the written sum over the full range is defined and gives the type's maximum for the largest offset, as the corrected form does |
| RandomRange.AsWrittenAgrees | EazyStart/src/tools/random.c:283 | when the signed addition `min + (TYPE) r` does not overflow, it equals the wrapping addition |
| RandomRange.AsWrittenOverflowsIff | EazyStart/src/tools/random.c:283 | for 32- and 64-bit signed types, the signed addition overflows exactly when the drawn offset exceeds the type's maximum |
| RandomRange.IntInclusiveOverflows | EazyStart/src/tools/random.c:282-283 | for int over [-1, INT_MAX] the offset 2^31 overflows the signed addition, and the wrapping addition gives INT_MAX |
| RandomRange.LongLongFullRangeOverflows | EazyStart/src/tools/random.c:282-283 | for long long over its full range the offset UINT64_MAX overflows the signed addition, and the wrapping addition gives LLONG_MAX |
| Random.AcquiredSeed | EazyStart/src/tools/random.c:91-110 | the acquired seed is one of the seeds the attempts yield |
| Random.SeedAttempts | EazyStart/src/tools/random.c:91-110 | the table of seed attempts has four entries and the last, the fallback, always succeeds |
| Random.FirstAttemptIsAcquired | EazyStart/src/tools/random.c:91-110 | the first seed source in priority order that succeeds supplies the seed |
| Random.TopBits | EazyStart/src/tools/random.c:155-158 | the result of random_next_bits(bits) fits in bits bits |
| Random.TopBitIsHalf | EazyStart/src/tools/random.c:313-315 | the top bit of a draw is set exactly when the draw is at least 2^63 |
| Random.Engine.constructor | EazyStart/src/tools/random.c:26-30 | a fresh engine is uninitialised with seed 0 |
| Random.Engine.IsInitialized | EazyStart/src/tools/random.c:262-264 | an initialised engine is never in the all-zero state; an uninitialised one has seed 0 and the all-zero state |
| Random.Engine.CurrentSeed | EazyStart/src/tools/random.c:267-269 | the reported seed is 0 until the engine has been initialised, and the stored seed afterwards |
| Random.Engine.InitSeed | EazyStart/src/tools/random.c:84-110 | the seed becomes the one acquired from the first working source, and nothing else changes |
| Random.Engine.InitState | EazyStart/src/tools/random.c:123-129 | the state words become the splitmix64 expansion of the seed |
| Random.Engine.Init | EazyStart/src/tools/random.c:246-250 | after initialisation the seed is the acquired one, the state is its expansion and the engine is marked initialised |
| Random.Engine.InitWithSeed | EazyStart/src/tools/random.c:253-259 | after seeding with a given value the seed is that value, the state is its expansion and the engine is marked initialised |
| Random.Engine.StepState | EazyStart/src/tools/random.c:137-151 | one generator step returns the scrambled word of the old state and leaves the stepped state |
| Random.Engine.Next | EazyStart/src/tools/random.c:137-151 | a draw first initialises the engine from its platform sources if needed, then returns the output of that state and steps it |
| Random.Engine.NextBits | EazyStart/src/tools/random.c:155-158 | the result is the top bits of the next draw, with the same state change as one draw |
| Random.Engine.Bool | EazyStart/src/tools/random.c:313-315 | the boolean is true exactly when the next draw is at least 2^63 |
| Random.FirstAcceptedInStream | EazyStart/src/tools/random.c:235-238 | the first accepted draw is the last of the first k + 1 words of the stream, the only one of them at most the limit |
| Random.Engine.DrawAtMost | EazyStart/src/tools/random.c:235-238 | the rejection loop returns the first draw not above the limit, and the state has advanced past exactly the draws it consumed |
| Random.Engine.IntegerRange | EazyStart/src/tools/random.c:225-241 | the result lies in [0, range]; range 0 draws nothing and returns 0, range UINT64_MAX returns one raw draw, other ranges reduce the first accepted draw modulo range + 1 |
| Random.Engine.Inclusive | EazyStart/src/tools/random.c:275-284 | the result lies in [min, max]; min == max returns min without drawing; otherwise the result is min plus what random_integer_range returns for the range max - min (the first accepted draw reduced, or the raw draw for the full 64-bit range), the engine is initialised with the seed its next draw uses, and the state has moved past exactly the draws examined |
| Random.Engine.Exclusive | EazyStart/src/tools/random.c:285-290 | the result lies in [min, max); max == min + 1 returns min without drawing; otherwise the result is min plus what random_integer_range returns for the range max - 1 - min, with the same new seed, flag and state as that call |
| Benchmark.SumOf | EazyStart/src/time/benchmark.c:164-167 | the running sum of recorded durations stays normalised |
| Benchmark.MinOfIsLeast | EazyStart/src/time/benchmark.c:147-159 | the recorded minimum is one of the durations and no duration is shorter |
| Benchmark.MaxOfIsGreatest | EazyStart/src/time/benchmark.c:147-159 | the recorded maximum is one of the durations and no duration is longer |
| Benchmark.MinAtMostMax | EazyStart/src/time/benchmark.c:147-159 | the minimum never exceeds the maximum |
| Benchmark.SumOfIsTotal | EazyStart/src/time/benchmark.c:164-167 | the recorded sum is the total of all durations |
| Benchmark.BelowMinKeepsMax | EazyStart/src/time/benchmark.c:155-159 | a new duration below the minimum leaves the maximum unchanged, which justifies the `else if` |
| Benchmark.Statistics | EazyStart/src/time/benchmark.c:41-52 | the statistics are refused exactly when the count is 0 |
| Benchmark.RecordRun | EazyStart/src/time/benchmark.c:143-167 | a recorded run leaves the entry idle with one more run and the same start time, and adds the run's duration to the sum, which the first run starts from zero |
| Benchmark.RecordRunAgrees | EazyStart/src/time/benchmark.c:143-167 | recording a run into an entry that matches its history gives the entry that matches the history extended by that run: idle again, count + 1, and minimum, maximum and sum of the extended history |
| Benchmark.StatisticsOfRecorded | EazyStart/src/time/benchmark.c:41-52 | for a consistent entry, statistics exist exactly when some run was recorded, and they carry the number of runs and the total of their durations |
| Benchmark.Benchmarks.constructor | EazyStart/src/time/benchmark.c:59 | the table starts empty |
| Benchmark.Benchmarks.Clear | EazyStart/src/time/benchmark.c:64-66 | clearing leaves an empty table |
| Benchmark.Benchmarks.Start | EazyStart/src/time/benchmark.c:77-112 | an unknown name gets a new running entry with the minimum sentinel; a running name is left untouched; an idle name starts running at the given time; every entry keeps agreeing with its history |
| Benchmark.Benchmarks.End | EazyStart/src/time/benchmark.c:114-167 | without a time, for an unknown name or for an idle entry nothing changes; otherwise the duration since start is appended to the name's history and the entry becomes idle with count, minimum, maximum and sum of that history |
| Input.CLength | EazyStart/src/io/input.c:47-52 | the length of a C string is the index of its first terminator |
| Input.CLengthIsFirstTerminator | EazyStart/src/io/input.c:47-52 | a terminator with none before it is where the string ends |
| Input.FirstNonSpace | EazyStart/src/io/input.c:47-52 | a found position lies inside the string at or after the start |
| Input.FirstNonSpaceIsFirst | EazyStart/src/io/input.c:45-52 | a found position holds a non-whitespace character and only whitespace precedes it; nothing is found exactly when the rest of the string is whitespace |
| Input.GetFirstNonWhitespaceChar | EazyStart/src/io/input.c:47-52 | the scanning loop returns the first non-whitespace position, or none at the terminator |
| Input.NewlineIndex | EazyStart/src/io/input.c:32 | a found newline lies inside the string |
| Input.NewlineFromIsFirst | EazyStart/src/io/input.c:32 | a found newline is the first one, and none is found exactly when the string has no newline |
| Input.TerminateLine | EazyStart/src/io/input.c:32-42 | the line is accepted exactly when it holds a newline; then the first newline becomes the terminator and nothing else changes, otherwise the buffer is unchanged |
| Input.TerminatedText | EazyStart/src/io/input.c:32-42 | after termination the string ends where the newline was and keeps the text before it |
| Input.CharInput | EazyStart/src/io/input.c:101-110 | a line is rejected exactly when it holds two or more characters |
| Input.CharInputByLength | EazyStart/src/io/input.c:101-110 | an empty line reads as '\n', a one-character line reads as that character, and a line of two or more characters is rejected |
| Input.BoolInput | EazyStart/src/io/input.c:125-153 | an accepted line is not empty |
| Input.BoolInputMeaning | EazyStart/src/io/input.c:125-153 | a line reads as a bool exactly when it is one recognised letter surrounded by whitespace, Y/T/1 for true and N/F/0 for false in either case |
| Input.YesIsRejected | EazyStart/include/EazyStart/io/input.h:45-46 | the word "Yes" is rejected: only single letters are recognised |
| Input.Decide | EazyStart/src/io/input.c:63-82 | a line is refused for no conversion exactly when nothing was consumed, and for range exactly when something was consumed and ERANGE or the type's check fired; extra characters are reported at a position after the converted prefix |
| Input.DecideAcceptsIff | EazyStart/src/io/input.c:66-82 | a numeric line is accepted exactly when the conversion consumed something, no range error was reported and only whitespace follows; a rejection for extra characters points at the first of them |
| Input.NarrowTypeEdges | EazyStart/include/EazyStart/io/input.h:14-19 | for signed char, unsigned char, short, unsigned short, int and unsigned int the extreme values pass the range check and the next value out fails it; unsigned long long has no check |
| Input.RangeCheckIsTypeLimits | EazyStart/include/EazyStart/io/input.h:14-26 | for any value the conversion function can return, the type's range check fails exactly when the value is outside the type |
| Input.IntegerInput | EazyStart/src/io/input.c:63-82 | an accepted integer is a value of the type |
| Input.IntegerInputFits | EazyStart/src/io/input.c:63-82 | an accepted integer is the converted value and fits the type, so the final cast keeps it; a line is accepted exactly when the conversion is clean and the value is in the type |
| Input.FloatingAccepted | EazyStart/src/io/input.c:63-82 | a floating-point line is accepted exactly when the conversion consumed something, reported no range error and only whitespace follows |

## Left out

- Seed sources: the OS generator, the performance counter and the wall clock are platform calls. Their outcomes are an `Entropy` parameter, and the diagnostic text they fill in is not modelled.
- Printing: the seed announcement in `ezs_random_init_with_seed`, every warning on stderr and the benchmark report (`print_benchmark_entry`, `ezs_benchmark_print_all`, `ezs_benchmark_final_report`) are output only.
- Floating-point samplers (`random_*_01`, `fma_g`, the float range functions) and the 128-bit helpers are left out, because the model has no floating-point arithmetic.
- Random.Engine.IntegerRange, Random.Engine.Inclusive, Random.Engine.Exclusive: each requires that the generator, from its current state, eventually yields an acceptable draw (`RangeTerminates`). The C loop has no bound, and the model does not prove the generator's statistical properties.
- Random.Engine.StepState: it writes the four words of `Step` of the old state rather than updating them one assignment at a time as `random_next` does. The final state is the same.
- Thread safety: the C engine and benchmark table are global and unsynchronised. The model is sequential.
- Clock readings: `ezs_clock_get_performance_counter` is a platform call. `Start` receives the time as a parameter, and `End` receives it as an `Option`, where `None` is the failed reading. The fatal exit when `start` cannot read the clock and the `atexit` registration are not modelled.
- Benchmark variance: the Welford corrected sum of squares, the sample standard deviation and the relative standard deviation are `long double` arithmetic and are left out. The mean is left out because `ezs_clock_timespec_div`, which computes it, is not part of this model. `Statistics` returns the sum and the count from which the mean is derived.
- `ezs_benchmark_drop` frees the table's memory, which is not modelled.
- Clock: `tv_sec` is an unbounded integer, so signed overflow of the seconds field is not modelled. `ezs_clock_timespec_to_seconds` (floating point) and `ezs_clock_timespec_div` are left out.
- Input: `read_line`'s prompt, the `fgets` call, its EOF and error exits, `clear_input_buffer` and the retry loops are I/O. A read line is a C string given as a parameter, and a rejected line is `None` where the C function would prompt again.
- Input conversions: `strtol`, `strtoul`, `strtoll`, `strtoull` and the floating conversions are a `Conversion` oracle holding the value, the end index and the ERANGE flag. Their parsing, including `strtoul` accepting a leading minus sign, is not modelled.
- Input.FloatingAccepted: only the accept/reject decision is modelled for the floating types, not the converted value.
- Input.IntegerInput: the values the conversion functions can return (`ConverterRange`) are taken as 64 bits wide, as `long` and `unsigned long` are on LP64 platforms. On LLP64 platforms `strtol` and `strtoul` return 32-bit values and enforce those limits with their own ERANGE, which the model does not cover.
- `isspace` and `toupper` follow the C locale.
- `print.c`, `charset.c` and the demonstration `main.c` are not part of this model.

## Findings

| source | as written | input that shows it | evidently intended | confidence | as-written member | corrected member |
|---|---|---|---|---|---|---|
| EazyStart/src/tools/random.c:283 and :290, with EazyStart/include/EazyStart/tools/random.h:37-52 | `min + (TYPE) random_integer_range(range)` is a signed addition in the type (int, long, long long). It overflows, which is undefined behaviour, whenever the drawn offset exceeds the type's maximum, although random.h promises that the computation wraps around | `ezs_random_int_inclusive(-1, INT_MAX)` when the draw gives the offset 2^31. The `(int)` cast gives INT_MIN, and `-1 + INT_MIN` overflows. Also `ezs_random_long_long_inclusive(LLONG_MIN, LLONG_MAX)` with the offset UINT64_MAX | the sum computed in `uint64_t` and converted once: `(TYPE)((uint64_t)min + r)`, which always lands in [min, max] | not executed | RandomRange.AsWrittenOffset (with RandomRange.AsWrittenOverflowsIff, RandomRange.IntInclusiveOverflows, RandomRange.LongLongFullRangeOverflows) | RandomRange.Offset (with RandomRange.OffsetLands), used by Random.Engine.Inclusive and Random.Engine.Exclusive |
