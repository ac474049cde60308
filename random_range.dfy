/**
 * The integer arithmetic of EazyStart/src/tools/random.c: the rejection
 * threshold of random_integer_range and the range and offset computations
 * of the integer samplers generated by DEFINE_RANDOM_INTEGER_FUNC. All of
 * it is unsigned 64-bit C arithmetic, modelled on int with an explicit
 * reduction modulo 2^64 (ToU64).
 */
module RandomRange {
  import opened Wrappers
  import opened CInt

  /** A draw of n = range + 1 outcomes: the number of top values that must
      be rejected so that the accepted values fall into whole blocks of n,
      `-num_outcomes % num_outcomes` in uint64_t arithmetic. */
  function Threshold(range: int): (r: int)
    requires 0 < range < U64Max
    ensures 0 <= r <= range
  {
    ToU64(-(range + 1)) % (range + 1)
  }

  /** The largest draw random_integer_range accepts. */
  function Limit(range: int): (r: int)
    requires 0 < range < U64Max
    ensures U64Max - range <= r <= U64Max
  {
    U64Max - Threshold(range)
  }

  /** The rejected values are exactly 2^64 mod n: the top partial block. */
  lemma ThresholdIsRemainder(range: int)
    requires 0 < range < U64Max
    ensures Threshold(range) == U64Mod % (range + 1)
  {
    var n := range + 1;
    assert ToU64(-n) == U64Mod - n by {
      ModUnique(-n, U64Mod, -1, U64Mod - n);
    }
    ModAddMultiple(U64Mod, -1, n);
  }

  /** The accepted draws 0 .. Limit(range) are a whole number (at least one)
      of blocks of n consecutive values. EachOutcomeEquallyOften draws the
      consequence that the mapping `r % n` is unbiased. */
  lemma LimitIsWholeBlocks(range: int)
    requires 0 < range < U64Max
    ensures (Limit(range) + 1) % (range + 1) == 0
    ensures range <= Limit(range) <= U64Max
  {
    var n := range + 1;
    ThresholdIsRemainder(range);
    var q, rem := U64Mod / n, U64Mod % n;
    assert U64Mod == q * n + rem;
    assert Limit(range) + 1 == q * n;
    ModUnique(q * n, n, q, 0);
    if q < 1 {
      MulAtLeast(1 - q, n);
      assert false;
    }
    MulAtLeast(q, n);
  }

  /** What random_integer_range makes of an accepted draw d. */
  function Reduce(d: int, range: int): (r: int)
    requires 0 <= d && 0 <= range
    ensures 0 <= r <= range
  {
    d % (range + 1)
  }

  /** Every outcome 0 .. range is reached by some accepted draw. */
  lemma EveryOutcomeReachable(range: int, r: int)
    requires 0 < range < U64Max && 0 <= r <= range
    ensures r <= Limit(range) && Reduce(r, range) == r
  {
    LimitIsWholeBlocks(range);
    ModUnique(r, range + 1, 0, r);
  }

  /** Every draw d is b * n + (d % n) for its block b = d / n. The draws
      that reduce to a given outcome r are therefore b * n + r, and such a
      draw is accepted exactly when b is below the number of whole blocks,
      (Limit(range) + 1) / n: every outcome is produced by the same number
      of accepted draws. */
  lemma {:induction false} EachOutcomeEquallyOften(range: int, b: int, r: int)
    requires 0 < range < U64Max && 0 <= r <= range && 0 <= b
    ensures Reduce(b * (range + 1) + r, range) == r
    ensures b * (range + 1) + r <= Limit(range) <==> b < (Limit(range) + 1) / (range + 1)
  {
    var n := range + 1;
    LimitIsWholeBlocks(range);
    var m := Limit(range) + 1;
    var q := m / n;
    assert m == q * n + m % n;
    ModUnique(b * n + r, n, b, r);
    BlockBound(b, r, n, q);
  }

  /** Offset r of block b lies in the first q blocks exactly when b < q. */
  lemma BlockBound(b: int, r: int, n: int, q: int)
    requires n > 0 && 0 <= r < n && 0 <= b
    ensures b * n + r < q * n <==> b < q
  {
    if b < q {
      MulAtLeast(q - b, n);
      assert (q - b) * n == q * n - b * n;
    } else {
      assert b * n == (b - q) * n + q * n;
      assert (b - q) * n >= 0;
    }
  }

  /** `((uint64_t) max) - ((uint64_t) min)`, the range of an inclusive
      sampler. */
  function InclusiveRange(min: int, max: int): (r: int)
    ensures 0 <= r <= U64Max
    ensures (r - (max - min)) % U64Mod == 0
  {
    CongruentDiff(ToU64(max), max, ToU64(min), min);
    CongruentChain(ToU64(ToU64(max) - ToU64(min)), ToU64(max) - ToU64(min), max - min);
    ToU64(ToU64(max) - ToU64(min))
  }

  /** `((uint64_t) max - 1) - ((uint64_t) min)`, the range of an exclusive
      sampler. */
  function ExclusiveRange(min: int, max: int): (r: int)
    ensures 0 <= r <= U64Max
    ensures (r - (max - 1 - min)) % U64Mod == 0
  {
    WrapSum(max, -1);
    CongruentDiff(ToU64(ToU64(max) - 1), max - 1, ToU64(min), min);
    CongruentChain(ToU64(ToU64(ToU64(max) - 1) - ToU64(min)),
      ToU64(ToU64(max) - 1) - ToU64(min), max - 1 - min);
    ToU64(ToU64(ToU64(max) - 1) - ToU64(min))
  }

  /** Congruence modulo 2^64 is transitive. */
  lemma CongruentChain(x: int, y: int, z: int)
    requires (x - y) % U64Mod == 0 && (y - z) % U64Mod == 0
    ensures (x - z) % U64Mod == 0
  {
    SumOfMultiples(0, y - z, U64Mod);
    assert (z - y) % U64Mod == 0;
    SumOfMultiples(x - y, z - y, U64Mod);
  }

  /** For bounds of any 64-bit-or-narrower type, the wrapping subtraction
      yields the true distance max - min, even for the full range of a
      signed 64-bit type (where `max - min` itself would overflow). */
  lemma InclusiveRangeIsDistance(t: CType, min: int, max: int)
    requires ValidType(t) && InType(t, min) && InType(t, max) && min <= max
    ensures InclusiveRange(min, max) == max - min
  {
    CongruentDiff(ToU64(max), max, ToU64(min), min);
    Congruent3(ToU64(max) - ToU64(min), max - min);
  }

  /** The exclusive range is the distance from min to max - 1. */
  lemma ExclusiveRangeIsDistance(t: CType, min: int, max: int)
    requires ValidType(t) && InType(t, min) && InType(t, max) && min < max
    ensures ExclusiveRange(min, max) == max - 1 - min
  {
    WrapSum(max, -1);
    CongruentDiff(ToU64(ToU64(max) - 1), max - 1, ToU64(min), min);
    Congruent3(ToU64(ToU64(max) - 1) - ToU64(min), max - 1 - min);
  }

  /** ToU64 of differences and sums of ToU64 values is the ToU64 of the
      true result. */
  lemma Congruent3(x: int, y: int)
    requires 0 <= y <= U64Max
    requires (x - y) % U64Mod == 0
    ensures ToU64(x) == y
  {
    ModOfCongruent(x, y, U64Mod);
    ModUnique(y, U64Mod, 0, y);
  }

  /** The value an integer sampler returns for min and an offset v in
      0 .. range: `(TYPE)((uint64_t) min + v)`, unsigned arithmetic followed
      by the two's complement conversion random.h:37-52 relies on. */
  function Offset(t: CType, min: int, v: int): (r: int)
    requires ValidType(t)
    ensures InType(t, r)
    ensures (r - (min + v)) % Modulus(t) == 0
  {
    var x := ToU64(ToU64(min) + v);
    WrapSum(min, v);
    ModulusDividesU64(t);
    MultipleOfMultiple(x - (min + v), U64Mod, Modulus(t));
    SumOfMultiples(0, x - (min + v), Modulus(t));
    SumOfMultiples(ToType(t, x) - x, (min + v) - x, Modulus(t));
    ToType(t, x)
  }

  /** The offset lands where it should: min + v, whenever that is a value of
      the type. */
  lemma OffsetLands(t: CType, min: int, v: int)
    requires ValidType(t) && InType(t, min) && 0 <= v && InType(t, min + v)
    ensures Offset(t, min, v) == min + v
  {
    var x := ToU64(ToU64(min) + v);
    WrapSum(min, v);
    ModulusDividesU64(t);
    MultipleOfMultiple(x - (min + v), U64Mod, Modulus(t));
    ToTypeCongruent(t, x, min + v);
    ToTypeKeeps(t, min + v);
  }

  /** `min + (TYPE) v` as the samplers write it. The operands are promoted
      to int for types narrower than int; for int, long and long long the
      sum is a signed addition of that type, and a sum outside the type is
      undefined behaviour (None). For unsigned types the sum wraps. */
  function AsWrittenOffset(t: CType, min: int, v: int): (r: Option<int>)
    requires ValidType(t)
    ensures r.Some? ==> InType(t, r.value)
    ensures r.None? ==> t.signed && t.bits >= 32
  {
    var sum := min + ToType(t, v);
    if t.signed && t.bits >= 32 && !InType(t, sum) then None
    else Some(ToType(t, sum))
  }

  /** For `char`, signed or not, the written form is defined even over the
      full range: the operands are promoted to int, and the sum of min and
      the largest offset converts back to the type's maximum. */
  lemma CharFullRangeIsDefined(signed: bool)
    ensures var t := Char(signed);
      AsWrittenOffset(t, MinValue(t), 255) == Some(MaxValue(t)) &&
      Offset(t, MinValue(t), 255) == MaxValue(t)
  {
    var t := Char(signed);
    OffsetLands(t, MinValue(t), 255);
  }

  /** Where the written form is defined, it agrees with Offset. */
  lemma AsWrittenAgrees(t: CType, min: int, v: int)
    requires ValidType(t) && InType(t, min) && 0 <= v
    requires AsWrittenOffset(t, min, v).Some?
    ensures AsWrittenOffset(t, min, v).value == Offset(t, min, v)
  {
    var x := ToU64(ToU64(min) + v);
    var sum := min + ToType(t, v);
    ModulusDividesU64(t);
    WrapSum(min, v);
    MultipleOfMultiple(x - (min + v), U64Mod, Modulus(t));
    assert (ToType(t, v) - v) % Modulus(t) == 0;
    SumOfMultiples(x - (min + v), ToType(t, v) - v, Modulus(t));
    assert x - sum == (x - (min + v)) - (ToType(t, v) - v);
    ToTypeCongruent(t, x, sum);
  }

  /** For signed int, long and long long, the written form overflows
      exactly when the drawn offset is larger than the type's maximum,
      which happens only for ranges wider than that maximum. */
  lemma AsWrittenOverflowsIff(t: CType, min: int, max: int, v: int)
    requires ValidType(t) && t.signed && t.bits >= 32
    requires InType(t, min) && InType(t, max) && 0 <= v <= max - min
    ensures AsWrittenOffset(t, min, v).None? <==> v > MaxValue(t)
  {
    var m := Modulus(t);
    if v > MaxValue(t) {
      ModUnique(v, m, 0, v);
      assert ToType(t, v) == v - m;
    } else {
      ToTypeKeeps(t, v);
    }
  }

  /** ezs_random_int_inclusive(-1, INT_MAX): the range 2^31 admits the
      offset 2^31, for which the written `min + (int) r` overflows. */
  lemma IntInclusiveOverflows()
    ensures InclusiveRange(-1, 0x7fff_ffff) == 0x8000_0000
    ensures AsWrittenOffset(Int, -1, 0x8000_0000) == None
    ensures Offset(Int, -1, 0x8000_0000) == 0x7fff_ffff
  {
    InclusiveRangeIsDistance(Int, -1, 0x7fff_ffff);
    ToTypeCongruent(Int, 0x8000_0000, -0x8000_0000);
    ToTypeKeeps(Int, -0x8000_0000);
    OffsetLands(Int, -1, 0x8000_0000);
  }

  /** ezs_random_long_long_inclusive(INT64_MIN, INT64_MAX): the range is
      UINT64_MAX, the raw draw is used, and the draw UINT64_MAX makes the
      written sum INT64_MIN + (-1). */
  lemma LongLongFullRangeOverflows()
    ensures InclusiveRange(-0x8000_0000_0000_0000, 0x7fff_ffff_ffff_ffff) == U64Max
    ensures AsWrittenOffset(LongLong, -0x8000_0000_0000_0000, U64Max) == None
    ensures Offset(LongLong, -0x8000_0000_0000_0000, U64Max) == 0x7fff_ffff_ffff_ffff
  {
    InclusiveRangeIsDistance(LongLong, -0x8000_0000_0000_0000, 0x7fff_ffff_ffff_ffff);
    ToTypeCongruent(LongLong, U64Max, -1);
    ToTypeKeeps(LongLong, -1);
    OffsetLands(LongLong, -0x8000_0000_0000_0000, U64Max);
  }

  /** Wrapping an operand first does not change the wrapped sum:
      ToU64(ToU64(a) + b) is congruent to a + b. */
  lemma WrapSum(a: int, b: int)
    ensures (ToU64(ToU64(a) + b) - (a + b)) % U64Mod == 0
  {
    var u := ToU64(a);
    var x := ToU64(u + b);
    var p, q := (x - (u + b)) / U64Mod, (u - a) / U64Mod;
    assert x - (u + b) == p * U64Mod;
    assert u - a == q * U64Mod;
    ModUnique(x - (a + b), U64Mod, p + q, 0);
  }

  /** Differences of congruent values are congruent. */
  lemma CongruentDiff(x: int, x': int, y: int, y': int)
    requires (x - x') % U64Mod == 0 && (y - y') % U64Mod == 0
    ensures ((x - y) - (x' - y')) % U64Mod == 0
  {
    var p, q := (x - x') / U64Mod, (y - y') / U64Mod;
    assert x - x' == p * U64Mod;
    assert y - y' == q * U64Mod;
    ModUnique((x - y) - (x' - y'), U64Mod, p - q, 0);
  }

  lemma ModulusDividesU64(t: CType)
    requires ValidType(t)
    ensures U64Mod % Modulus(t) == 0
  {
  }

  lemma MultipleOfMultiple(x: int, big: int, m: int)
    requires m > 0 && big > 0 && big % m == 0 && x % big == 0
    ensures x % m == 0
  {
    var q, p := x / big, big / m;
    assert x == q * big;
    assert big == p * m;
    assert x == (q * p) * m;
    ModUnique(x, m, q * p, 0);
  }

  lemma SumOfMultiples(a: int, b: int, m: int)
    requires m > 0 && a % m == 0 && b % m == 0
    ensures (a - b) % m == 0
  {
    var p, q := a / m, b / m;
    assert a - b == (p - q) * m;
    ModUnique(a - b, m, p - q, 0);
  }
}
