/**
 * The pure bit-level functions behind the random engine of
 * EazyStart/src/tools/random.c: the splitmix64 seed expander and one step
 * of the xoshiro256** generator (Blackman and Vigna), over 64-bit words.
 * C's unsigned 64-bit arithmetic wraps modulo 2^64, which is what Dafny's
 * bv64 arithmetic does.
 */
module Xoshiro {

  /** The splitmix64 increment, an odd 64-bit constant. */
  const Golden: bv64 := 0x9e3779b97f4a7c15

  /** The value splitmix64_next returns once its accumulator has been
      advanced to z: two xor-shift-multiply rounds and a final xor-shift. */
  function SplitMixOutput(z: bv64): bv64 {
    var z1 := (z ^ (z >> 30)) * 0xbf58476d1ce4e5b9;
    var z2 := (z1 ^ (z1 >> 27)) * 0x94d049bb133111eb;
    z2 ^ (z2 >> 31)
  }

  /** The splitmix64 accumulator after one call: advanced by the golden
      constant, wrapping. */
  function Advance(acc: bv64): (acc': bv64)
    ensures acc' - acc == Golden
  {
    acc + Golden
  }

  /** splitmix64_next: the accumulator is advanced, and the output is a
      function of its new value. */
  method SplitMix64Next(acc: bv64) returns (acc': bv64, z: bv64)
    ensures acc' == Advance(acc)
    ensures z == SplitMixOutput(acc')
  {
    acc' := acc + Golden;
    z := SplitMixOutput(acc');
  }

  /** The four state words s[0] .. s[3] of xoshiro256**. */
  datatype Words = Words(w0: bv64, w1: bv64, w2: bv64, w3: bv64)

  const AllZero: Words := Words(0, 0, 0, 0)

  /** init_state: the state a seed expands to, the outputs of four
      successive splitmix64 calls on an accumulator that starts at the
      seed. It is never the all-zero state, whatever the seed. */
  function ExpandSeed(seed: bv64): (r: Words)
    ensures r != AllZero
  {
    var a1 := Advance(seed);
    var a2 := Advance(a1);
    var a3 := Advance(a2);
    var a4 := Advance(a3);
    SplitMixOutputZero(a1);
    SplitMixOutputZero(a2);
    Words(SplitMixOutput(a1), SplitMixOutput(a2), SplitMixOutput(a3), SplitMixOutput(a4))
  }

  /** The splitmix64 mix is injective at zero: it maps only 0 to 0. Each
      xor-shift round and each multiplication by an odd constant can be
      undone. */
  lemma SplitMixOutputZero(z: bv64)
    ensures SplitMixOutput(z) == 0 <==> z == 0
  {
    var z1 := (z ^ (z >> 30)) * 0xbf58476d1ce4e5b9;
    var z2 := (z1 ^ (z1 >> 27)) * 0x94d049bb133111eb;
    if SplitMixOutput(z) == 0 {
      XorShift31Zero(z2);
      MulUndone(z1 ^ (z1 >> 27), 0x94d049bb133111eb, 0x319642b2d24d8ec3);
      XorShift27Zero(z1);
      MulUndone(z ^ (z >> 30), 0xbf58476d1ce4e5b9, 0x96de1b173f119089);
      XorShift30Zero(z);
    }
  }

  /** x ^ (x >> k) is 0 only for x == 0, for the three shifts of the mix:
      the top k bits of the result are those of x. */
  lemma XorShift30Zero(x: bv64)
    ensures x ^ (x >> 30) == 0 ==> x == 0
  {
  }

  lemma XorShift27Zero(x: bv64)
    ensures x ^ (x >> 27) == 0 ==> x == 0
  {
  }

  lemma XorShift31Zero(x: bv64)
    ensures x ^ (x >> 31) == 0 ==> x == 0
  {
  }

  /** A product by c is undone by a multiplicative inverse of c, so it is 0
      only for 0. */
  lemma MulUndone(x: bv64, c: bv64, inv: bv64)
    requires c * inv == 1
    ensures x * c == 0 ==> x == 0
  {
    if x * c == 0 {
      calc {
        x;
        x * (c * inv);
        (x * c) * inv;
        0;
      }
    }
  }

  /** rotl of random.c, for shift counts 1 to 63 (a count of 0 would shift
      by 64, which C leaves undefined). */
  function Rotl(x: bv64, k: bv64): (r: bv64)
    requires 0 < k < 64
  {
    (x << k) | (x >> (64 - k))
  }

  /** The two rotations the generator uses are true bit rotations. */
  lemma RotlRotates(x: bv64)
    ensures Rotl(x, 7) == x.RotateLeft(7)
    ensures Rotl(x, 45) == x.RotateLeft(45)
  {
  }

  /** x * 5 and x * 9 written as a shift and an add, the form the proofs
      about the output use (a product costs the solver far more). */
  function Times5(x: bv64): bv64 {
    (x << 2) + x
  }

  function Times9(x: bv64): bv64 {
    (x << 3) + x
  }

  lemma Times5IsProduct(x: bv64)
    ensures Times5(x) == x * 5
  {
  }

  lemma Times9IsProduct(x: bv64)
    ensures Times9(x) == x * 9
  {
  }

  /** The shift-and-add form is the scrambler as written in random.c. */
  lemma ScrambleIsProduct(x: bv64)
    ensures Scramble(x) == Rotl(x * 5, 7) * 9
  {
    Times5IsProduct(x);
    Times9IsProduct(Rotl(x * 5, 7));
  }

  /** The "**" scrambler `rotl(x * 5, 7) * 9` applied to the word s[1]. */
  function Scramble(x: bv64): bv64 {
    Times9(Rotl(Times5(x), 7))
  }

  /** The word random_next returns in state s: 0 exactly when s[1] is 0,
      since multiplying by 5 or 9 and rotating are one-to-one. */
  function Output(s: Words): (r: bv64)
    ensures r == 0 <==> s.w1 == 0
  {
    var x5 := Times5(s.w1);
    Times5IsProduct(s.w1);
    MulUndone(s.w1, 5, 0xcccccccccccccccd);
    var y := Rotl(x5, 7);
    Times9IsProduct(y);
    MulUndone(y, 9, 0x8e38e38e38e38e39);
    Scramble(s.w1)
  }

  /** The state random_next leaves behind, with the updates of random.c
      applied in their order. Only the all-zero state steps to all zero. */
  function Step(s: Words): Words
  {
    var t := s.w1 << 17;
    var w2 := s.w2 ^ s.w0;
    var w3 := s.w3 ^ s.w1;
    var w1 := s.w1 ^ w2;
    var w0 := s.w0 ^ w3;
    Words(w0, w1, w2 ^ t, Rotl(w3, 45))
  }

  lemma StepNonZero(s: Words)
    ensures Step(s) == AllZero <==> s == AllZero
  {
    hide Rotl;
    ZeroIsFixed();
    var r := Step(s);
    if r == AllZero {
      RotlZero(s.w3 ^ s.w1);
      assert s.w3 == s.w1;
      assert s.w0 == 0;
      assert s.w2 == s.w1;
      XorShiftLeft17Zero(s.w1);
    }
  }

  lemma RotlZero(x: bv64)
    ensures Rotl(x, 45) == 0 ==> x == 0
  {
  }

  lemma XorShiftLeft17Zero(x: bv64)
    ensures x ^ (x << 17) == 0 ==> x == 0
  {
  }

  /** The state after k calls of random_next. */
  function Iterate(s: Words, k: nat): Words
    decreases k
  {
    if k == 0 then s else Step(Iterate(s, k - 1))
  }

  /** The word the (k+1)-th call of random_next returns from state s. */
  function Draw(s: Words, k: nat): bv64 {
    Output(Iterate(s, k))
  }

  /** A generator that does not start in the all-zero state never reaches
      it. */
  lemma {:induction false} IterateNonZero(s: Words, k: nat)
    requires s != AllZero
    ensures Iterate(s, k) != AllZero
    decreases k
  {
    hide Step;
    hide Output;
    if k > 0 {
      IterateNonZero(s, k - 1);
      StepNonZero(Iterate(s, k - 1));
    }
  }

  /** The first n words the generator returns from state s. */
  function Draws(s: Words, n: nat): (r: seq<bv64>)
    ensures |r| == n
    decreases n
  {
    if n == 0 then [] else Draws(s, n - 1) + [Draw(s, n - 1)]
  }

  /** Word k of the stream is the (k+1)-th draw. */
  lemma {:induction false} DrawsAt(s: Words, n: nat, k: nat)
    requires k < n
    ensures Draws(s, n)[k] == Draw(s, k)
    decreases n
  {
    hide Step;
    hide Output;
    if k < n - 1 {
      DrawsAt(s, n - 1, k);
    }
  }

  /** The all-zero state is a fixed point that only ever returns 0: this is
      why a generator must never be seeded into it. */
  lemma ZeroIsFixed()
    ensures Step(AllZero) == AllZero
    ensures Output(AllZero) == 0
  {
  }

  lemma {:induction false} ZeroStaysZero(k: nat)
    ensures Iterate(AllZero, k) == AllZero
    ensures Draw(AllZero, k) == 0
    decreases k
  {
    hide Step;
    hide Output;
    ZeroIsFixed();
    if k > 0 {
      ZeroStaysZero(k - 1);
    }
  }

  /** Running a + b steps is running a steps and then b more. */
  lemma {:induction false} IterateAdd(s: Words, a: nat, b: nat)
    ensures Iterate(s, a + b) == Iterate(Iterate(s, a), b)
    decreases b
  {
    hide Step;
    hide Output;
    if b > 0 {
      IterateAdd(s, a, b - 1);
    }
  }

  /** The stream from s continues as the stream from the state reached
      after a draws. */
  lemma {:induction false} DrawsSplit(s: Words, a: nat, b: nat)
    ensures Draws(s, a + b) == Draws(s, a) + Draws(Iterate(s, a), b)
    decreases b
  {
    hide Step;
    hide Output;
    if b > 0 {
      var t := Iterate(s, a);
      var c := b - 1;
      DrawsSplit(s, a, c);
      IterateAdd(s, a, c);
      assert Draw(s, a + c) == Draw(t, c);
      assert a + b == (a + c) + 1;
      calc {
        Draws(s, a + b);
        Draws(s, a + c) + [Draw(s, a + c)];
        (Draws(s, a) + Draws(t, c)) + [Draw(t, c)];
        Draws(s, a) + (Draws(t, c) + [Draw(t, c)]);
        Draws(s, a) + Draws(t, b);
      }
    }
  }
}
