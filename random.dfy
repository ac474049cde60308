/**
 * The random number engine of EazyStart/src/tools/random.c. The C file
 * keeps its state in file-scope variables (the seed, the four xoshiro256**
 * words and the lazy-initialisation flag); here they are the fields of one
 * Engine object, and the library's functions are its methods.
 *
 * The seed sources are platform services (the OS random generator, the
 * performance counter, the wall clock); what they yield is an Entropy
 * value given to the engine rather than read from the machine.
 */
module Random {
  import opened Wrappers
  import opened CInt
  import opened Xoshiro
  import opened RandomRange

  /** The seed used when every other source fails. */
  const FallbackSeed: bv64 := 0xdeadbeefdeadbeef

  /** What each seed source yields at the time of initialisation, None when
      that source fails: the OS random generator's 64 bits, the performance
      counter's seconds and nanoseconds and the wall clock's seconds, each
      already converted to uint64_t. */
  datatype Entropy = Entropy(
    osRandom: Option<bv64>,
    performanceCounter: Option<(bv64, bv64)>,
    wallClock: Option<bv64>)

  /** The seed made from a performance counter reading. */
  function CounterSeed(sec: bv64, nsec: bv64): bv64 {
    sec ^ (nsec << 1)
  }

  /** The table of attempts init_seed walks through, in its order, each as
      the seed it would set. The fallback never fails. */
  function SeedAttempts(e: Entropy): (a: seq<Option<bv64>>)
    ensures |a| == 4 && a[3] == Some(FallbackSeed)
  {
    [e.osRandom,
     if e.performanceCounter.Some? then
       Some(CounterSeed(e.performanceCounter.value.0, e.performanceCounter.value.1))
     else None,
     e.wallClock,
     Some(FallbackSeed)]
  }

  /** The seed init_seed settles on: the first source that works, by
      priority. */
  function AcquiredSeed(e: Entropy): (r: bv64)
    ensures Some(r) in SeedAttempts(e)
  {
    if e.osRandom.Some? then e.osRandom.value
    else if e.performanceCounter.Some? then
      CounterSeed(e.performanceCounter.value.0, e.performanceCounter.value.1)
    else if e.wallClock.Some? then e.wallClock.value
    else FallbackSeed
  }

  /** The first attempt in the table that yields a seed yields the
      acquired seed. */
  lemma FirstAttemptIsAcquired(e: Entropy, i: nat)
    requires i < 4 && SeedAttempts(e)[i].Some?
    requires forall j :: 0 <= j < i ==> SeedAttempts(e)[j].None?
    ensures SeedAttempts(e)[i].value == AcquiredSeed(e)
  {
    var a := SeedAttempts(e);
    if i > 0 {
      assert a[0].None?;
    }
    if i > 1 {
      assert a[1].None?;
    }
    if i > 2 {
      assert a[2].None?;
    }
  }

  /** The word random_next_bits(bits) makes of a draw d: its top bits, which
      fit in bits bits. */
  function TopBits(d: bv64, bits: bv8): (r: bv64)
    requires 1 <= bits <= 64
    ensures r >> bits == 0
  {
    d >> (64 - bits)
  }

  /** The top bit of a draw is set exactly when the draw is at least 2^63. */
  lemma TopBitIsHalf(d: bv64)
    ensures (TopBits(d, 1) != 0) == (d >= 0x8000_0000_0000_0000)
  {
  }

  /** The draw random_integer_range accepts first, counting draws from
      state s: draw k is the first at or below limit. */
  ghost predicate FirstAccepted(s: Words, limit: int, k: nat) {
    Draw(s, k) as int <= limit &&
    forall j :: 0 <= j < k ==> Draw(s, j) as int > limit
  }

  /** The first accepted draw, read off the stream of draws: the last of
      the first k + 1 words is at most limit, and all before it are above. */
  lemma FirstAcceptedInStream(s: Words, limit: int, k: nat)
    ensures var ds := Draws(s, k + 1);
      FirstAccepted(s, limit, k) <==>
        ds[k] as int <= limit && forall j :: 0 <= j < k ==> ds[j] as int > limit
  {
    hide Step;
    hide Output;
    var ds := Draws(s, k + 1);
    DrawsAt(s, k + 1, k);
    forall j | 0 <= j < k
      ensures ds[j] == Draw(s, j)
    {
      DrawsAt(s, k + 1, j);
    }
  }

  /** random_integer_range(range) returns from state s: the rejection loop
      stops when the generator, from s, ever yields an acceptable draw. The
      ranges 0 and UINT64_MAX need no loop. */
  ghost predicate RangeTerminates(s: Words, range: int)
    requires 0 <= range <= U64Max
  {
    range == 0 || range == U64Max || exists k: nat :: Draw(s, k) as int <= Limit(range)
  }

  /** What random_integer_range does for a range above 0, from state s: v
      is its result and after the state it leaves. UINT64_MAX returns the
      first draw; any other range reduces the first accepted draw, and the
      generator has moved past exactly the draws examined. */
  ghost predicate RangeDrawn(s: Words, range: int, v: int, after: Words)
    requires 0 < range <= U64Max
  {
    if range == U64Max then
      v == Draw(s, 0) as int && after == Iterate(s, 1)
    else
      exists k: nat :: FirstAccepted(s, Limit(range), k) &&
        v == Reduce(Draw(s, k) as int, range) && after == Iterate(s, k + 1)
  }

  class Engine {
    /** The current seed; 0 until the engine is initialised. */
    var seed: bv64
    /** The xoshiro256** state words. */
    const state: array<bv64>
    var initialized: bool
    /** The number of draws since the last initialisation. */
    ghost var draws: nat
    /** What the seed sources yield if the engine initialises itself on its
        first draw. */
    const platform: Entropy

    function View(): Words
      reads this, state
      requires state.Length == 4
    {
      Words(state[0], state[1], state[2], state[3])
    }

    /** Before initialisation the seed and state are zero (static storage);
        after it, the state is the seed's expansion advanced once per draw. */
    ghost predicate Valid()
      reads this, state
    {
      state.Length == 4 &&
      (!initialized ==> seed == 0 && draws == 0 && View() == AllZero) &&
      (initialized ==> View() == Iterate(ExpandSeed(seed), draws))
    }

    /** The seed the next draw uses, initialising first if need be. */
    ghost function NextSeed(): bv64
      reads this
    {
      if initialized then seed else AcquiredSeed(platform)
    }

    /** The state the next draw is taken from. */
    ghost function Start(): Words
      reads this, state
      requires Valid()
    {
      if initialized then View() else ExpandSeed(AcquiredSeed(platform))
    }

    constructor (platform: Entropy)
      ensures Valid() && !initialized && seed == 0
      ensures this.platform == platform
    {
      hide ExpandSeed;
      hide SplitMixOutput;
      hide Step;
      hide Output;
      hide AcquiredSeed;
      seed := 0;
      initialized := false;
      draws := 0;
      this.platform := platform;
      state := new bv64[4](_ => 0);
    }

    /** ezs_random_is_initialized. An initialised engine is never in the
        all-zero state, from which every draw would be 0. */
    function IsInitialized(): (b: bool)
      reads this, state
      requires Valid()
      ensures b ==> View() != AllZero
      ensures !b ==> seed == 0 && View() == AllZero
    {
      if initialized then
        IterateNonZero(ExpandSeed(seed), draws);
        true
      else
        false
    }

    /** ezs_random_get_current_seed: 0 when not initialised. */
    function CurrentSeed(): (s: bv64)
      reads this, state
      requires Valid()
      ensures !IsInitialized() ==> s == 0
      ensures IsInitialized() ==> s == seed
    {
      seed
    }

    /** init_seed: try the sources in order and keep the first seed one of
        them yields. */
    method InitSeed(e: Entropy)
      modifies this
      ensures seed == AcquiredSeed(e)
      ensures initialized == old(initialized) && draws == old(draws)
    {
      var attempts := SeedAttempts(e);
      var i := 0;
      while i < |attempts|
        invariant 0 <= i <= |attempts|
        invariant forall j :: 0 <= j < i ==> attempts[j].None?
        invariant initialized == old(initialized) && draws == old(draws)
      {
        if attempts[i].Some? {
          FirstAttemptIsAcquired(e, i);
          seed := attempts[i].value;
          break;
        }
        i := i + 1;
      }
    }

    /** init_state: four splitmix64 outputs from an accumulator starting at
        the seed become the state words. */
    method InitState()
      requires state.Length == 4
      modifies state
      ensures View() == ExpandSeed(seed)
    {
      hide SplitMixOutput;
      var acc := seed;
      var z;
      acc, z := SplitMix64Next(acc);
      state[0] := z;
      acc, z := SplitMix64Next(acc);
      state[1] := z;
      acc, z := SplitMix64Next(acc);
      state[2] := z;
      acc, z := SplitMix64Next(acc);
      state[3] := z;
    }

    /** ezs_random_init: acquire a seed from e and expand it. */
    method Init(e: Entropy)
      requires Valid()
      modifies this, state
      ensures Valid() && initialized
      ensures seed == AcquiredSeed(e) && draws == 0
      ensures View() == ExpandSeed(seed)
    {
      hide ExpandSeed;
      hide SplitMixOutput;
      hide Step;
      hide Output;
      hide AcquiredSeed;
      InitSeed(e);
      InitState();
      initialized := true;
      draws := 0;
    }

    /** ezs_random_init_with_seed. */
    method InitWithSeed(newSeed: bv64)
      requires Valid()
      modifies this, state
      ensures Valid() && initialized
      ensures seed == newSeed && draws == 0
      ensures View() == ExpandSeed(newSeed)
    {
      hide ExpandSeed;
      hide SplitMixOutput;
      hide Step;
      hide Output;
      hide AcquiredSeed;
      seed := newSeed;
      InitState();
      initialized := true;
      draws := 0;
    }

    /** The body of random_next after the lazy initialisation: the
        scrambled second word is the result, and the state words are
        replaced by their xoshiro256** successors. */
    method StepState() returns (r: bv64)
      requires state.Length == 4
      modifies state
      ensures r == Output(old(View()))
      ensures View() == Step(old(View()))
    {
      var s := View();
      r := Output(s);
      var s' := Step(s);
      state[0], state[1], state[2], state[3] := s'.w0, s'.w1, s'.w2, s'.w3;
    }

    /** random_next: initialise on first use, then draw. */
    method Next() returns (r: bv64)
      requires Valid()
      modifies this, state
      ensures Valid() && initialized
      ensures seed == old(NextSeed())
      ensures r == Output(old(Start()))
      ensures View() == Step(old(Start()))
    {
      hide ExpandSeed;
      hide SplitMixOutput;
      hide Step;
      hide Output;
      hide AcquiredSeed;
      if !initialized {
        Init(platform);
      }
      r := StepState();
      draws := draws + 1;
    }

    /** random_next_bits: the top bits bits of the next draw. */
    method NextBits(bits: bv8) returns (r: bv64)
      requires Valid() && 1 <= bits <= 64
      modifies this, state
      ensures Valid() && initialized
      ensures seed == old(NextSeed())
      ensures r == TopBits(Output(old(Start())), bits)
      ensures View() == Step(old(Start()))
    {
      hide ExpandSeed;
      hide SplitMixOutput;
      hide Step;
      hide Output;
      hide AcquiredSeed;
      var d := Next();
      r := TopBits(d, bits);
    }

    /** ezs_random_bool: true exactly when the next draw's top bit is set. */
    method Bool() returns (b: bool)
      requires Valid()
      modifies this, state
      ensures Valid() && initialized
      ensures seed == old(NextSeed())
      ensures b == (Output(old(Start())) >= 0x8000_0000_0000_0000)
      ensures View() == Step(old(Start()))
    {
      hide ExpandSeed;
      hide SplitMixOutput;
      hide Step;
      hide Output;
      hide AcquiredSeed;
      var d := NextBits(1);
      TopBitIsHalf(Output(old(Start())));
      b := 0 != d;
    }

    /** random_integer_range: a value in 0 .. range. The range UINT64_MAX
        returns a raw draw, the range 0 returns 0 without drawing, and any
        other range draws until a draw is at most Limit(range) and reduces
        that draw modulo range + 1. */
    method IntegerRange(range: int) returns (r: int)
      requires Valid() && 0 <= range <= U64Max
      requires RangeTerminates(Start(), range)
      modifies this, state
      ensures Valid()
      ensures 0 <= r <= range
      ensures range == 0 ==> r == 0 && unchanged(this) && unchanged(state)
      ensures range > 0 ==>
        initialized && seed == old(NextSeed()) &&
        RangeDrawn(old(Start()), range, r, View())
    {
      hide ExpandSeed;
      hide SplitMixOutput;
      hide Step;
      hide Output;
      hide AcquiredSeed;
      if range == U64Max {
        var d := Next();
        return d as int;
      }
      if range == 0 {
        return 0;
      }
      var numOutcomes := range + 1;
      var threshold := ToU64(-numOutcomes) % numOutcomes;
      var limit := U64Max - threshold;
      assert limit == Limit(range);
      var d, k := DrawAtMost(limit);
      r := d as int % numOutcomes;
    }

    /** The do-while loop of random_integer_range: draw until a draw is at
        most limit. k counts the rejected draws. */
    method DrawAtMost(limit: int) returns (d: bv64, ghost k: nat)
      requires Valid()
      requires exists k: nat :: Draw(Start(), k) as int <= limit
      modifies this, state
      ensures Valid() && initialized && seed == old(NextSeed())
      ensures FirstAccepted(old(Start()), limit, k)
      ensures d == Draw(old(Start()), k)
      ensures View() == Iterate(old(Start()), k + 1)
    {
      hide ExpandSeed;
      hide SplitMixOutput;
      hide Step;
      hide Output;
      hide AcquiredSeed;
      ghost var s0 := Start();
      ghost var seed0 := NextSeed();
      ghost var bound: nat :| Draw(s0, bound) as int <= limit;
      d := Next();
      k := 0;
      while d as int > limit
        invariant Valid() && initialized && seed == seed0
        invariant k <= bound
        invariant d == Draw(s0, k) && View() == Iterate(s0, k + 1)
        invariant forall j :: 0 <= j < k ==> Draw(s0, j) as int > limit
        decreases bound - k
      {
        d := Next();
        k := k + 1;
      }
    }

    /** ezs_random_<type>_inclusive: a value of type t in min .. max; min
        itself, without drawing, when min == max. */
    method Inclusive(t: CType, min: int, max: int) returns (r: int)
      requires Valid() && ValidType(t)
      requires InType(t, min) && InType(t, max) && min <= max
      requires min == max || RangeTerminates(Start(), InclusiveRange(min, max))
      modifies this, state
      ensures Valid()
      ensures min <= r <= max
      ensures min == max ==> r == min && unchanged(this) && unchanged(state)
      ensures min < max ==>
        initialized && seed == old(NextSeed()) &&
        RangeDrawn(old(Start()), max - min, r - min, View())
    {
      hide ExpandSeed;
      hide SplitMixOutput;
      hide Step;
      hide Output;
      hide AcquiredSeed;
      hide RangeDrawn;
      hide Offset;
      hide ToType;
      hide ToU64;
      if min == max {
        return min;
      }
      var range := InclusiveRange(min, max);
      InclusiveRangeIsDistance(t, min, max);
      var v := IntegerRange(range);
      OffsetLands(t, min, v);
      r := Offset(t, min, v);
    }

    /** ezs_random_<type>: a value of type t in min .. max - 1. */
    method Exclusive(t: CType, min: int, max: int) returns (r: int)
      requires Valid() && ValidType(t)
      requires InType(t, min) && InType(t, max) && min < max
      requires RangeTerminates(Start(), ExclusiveRange(min, max))
      modifies this, state
      ensures Valid()
      ensures min <= r < max
      ensures max == min + 1 ==> r == min && unchanged(this) && unchanged(state)
      ensures max > min + 1 ==>
        initialized && seed == old(NextSeed()) &&
        RangeDrawn(old(Start()), max - 1 - min, r - min, View())
    {
      hide ExpandSeed;
      hide SplitMixOutput;
      hide Step;
      hide Output;
      hide AcquiredSeed;
      hide RangeDrawn;
      hide Offset;
      hide ToType;
      hide ToU64;
      var range := ExclusiveRange(min, max);
      ExclusiveRangeIsDistance(t, min, max);
      var v := IntegerRange(range);
      OffsetLands(t, min, v);
      r := Offset(t, min, v);
    }
  }
}
