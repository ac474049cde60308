/**
 * The C integer types the samplers of EazyStart/src/tools/random.c are
 * instantiated for (random.h:76-89), and the conversions between them
 * that the samplers rely on.
 *
 * A C type is its width and signedness. Conversions to a type keep the
 * value modulo 2^width; for a signed type the result is the two's
 * complement reading of that bit pattern, the implementation-defined
 * behaviour that random.h:40-41 requires of the platform.
 */
module CInt {

  const U64Mod: int := 0x1_0000_0000_0000_0000
  const U64Max: int := U64Mod - 1

  datatype CType = CType(bits: nat, signed: bool)

  /** The widths the library's integer types can have. */
  predicate ValidType(t: CType) {
    t.bits == 8 || t.bits == 16 || t.bits == 32 || t.bits == 64
  }

  /** `char` is signed or unsigned as the platform decides. */
  function Char(charIsSigned: bool): CType { CType(8, charIsSigned) }
  const SignedChar: CType := CType(8, true)
  const UnsignedChar: CType := CType(8, false)
  const Short: CType := CType(16, true)
  const UnsignedShort: CType := CType(16, false)
  const Int: CType := CType(32, true)
  const UnsignedInt: CType := CType(32, false)
  /** `long` as on LP64 platforms; on LLP64 platforms it is 32 bits wide. */
  const Long: CType := CType(64, true)
  const UnsignedLong: CType := CType(64, false)
  const LongLong: CType := CType(64, true)
  const UnsignedLongLong: CType := CType(64, false)

  /** 2^bits. */
  function Modulus(t: CType): (m: int)
    requires ValidType(t)
    ensures 256 <= m <= U64Mod
  {
    match t.bits
    case 8 => 0x100
    case 16 => 0x1_0000
    case 32 => 0x1_0000_0000
    case 64 => U64Mod
  }

  function MinValue(t: CType): int
    requires ValidType(t)
  {
    if t.signed then -(Modulus(t) / 2) else 0
  }

  function MaxValue(t: CType): int
    requires ValidType(t)
  {
    if t.signed then Modulus(t) / 2 - 1 else Modulus(t) - 1
  }

  /** x is a value of type t. */
  predicate InType(t: CType, x: int)
    requires ValidType(t)
  {
    MinValue(t) <= x <= MaxValue(t)
  }

  /** The conversion `(TYPE) x`: the value of type t congruent to x
      modulo 2^bits. */
  function ToType(t: CType, x: int): (r: int)
    requires ValidType(t)
    ensures InType(t, r)
    ensures (r - x) % Modulus(t) == 0
  {
    var m := x % Modulus(t);
    if t.signed && m > MaxValue(t) then m - Modulus(t) else m
  }

  /** The conversion `(uint64_t) x`. */
  function ToU64(x: int): (r: int)
    ensures 0 <= r <= U64Max
    ensures (r - x) % U64Mod == 0
  {
    x % U64Mod
  }

  /** A conversion leaves a value that already has the type unchanged. */
  lemma ToTypeKeeps(t: CType, x: int)
    requires ValidType(t) && InType(t, x)
    ensures ToType(t, x) == x
  {
  }

  /** Values congruent modulo 2^bits convert to the same value. */
  lemma {:induction false} ToTypeCongruent(t: CType, x: int, y: int)
    requires ValidType(t)
    requires (x - y) % Modulus(t) == 0
    ensures ToType(t, x) == ToType(t, y)
  {
    var m := Modulus(t);
    ModOfCongruent(x, y, m);
  }

  /** x and y with x - y a multiple of m leave the same remainder. */
  lemma ModOfCongruent(x: int, y: int, m: int)
    requires m > 0 && (x - y) % m == 0
    ensures x % m == y % m
  {
    var q := (x - y) / m;
    assert x - y == q * m;
    assert x == y + q * m;
    ModAddMultiple(y, q, m);
  }

  lemma ModAddMultiple(y: int, q: int, m: int)
    requires m > 0
    ensures (y + q * m) % m == y % m
  {
    var a, b := y / m, y % m;
    assert y == a * m + b;
    assert y + q * m == (a + q) * m + b;
    ModUnique(y + q * m, m, a + q, b);
  }

  /** Euclidean division is unique: a quotient and remainder in [0, m)
      that rebuild x are the ones `/` and `%` give. */
  lemma ModUnique(x: int, m: int, q: int, r: int)
    requires m > 0 && 0 <= r < m && x == q * m + r
    ensures x % m == r
  {
    var q', r' := x / m, x % m;
    var d := q - q';
    assert d * m == r' - r by {
      assert q * m - q' * m == d * m;
    }
    if d > 0 {
      MulAtLeast(d, m);
      assert false;
    } else if d < 0 {
      MulAtLeast(-d, m);
      assert false;
    }
  }

  lemma MulAtLeast(d: int, m: int)
    requires d >= 1 && m > 0
    ensures d * m >= m
  {
    var e := d - 1;
    assert e * m >= 0;
    assert d * m == e * m + m;
  }
}
