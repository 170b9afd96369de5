/**
 Go's own definition of an integer conversion `T(x)`: x is sign-extended (if
 signed) or zero-extended (if unsigned) to infinite precision and then
 truncated to T's size. Here that definition is written on bits, least
 significant first, independently of the modular `Wrap`, and the two are
 proved to agree. Because the extension is to infinite precision, it only
 depends on x's mathematical value: a non-negative value has infinitely many
 zero bits above it, a negative one infinitely many ones.
 */
module ConversionBits {
  import opened GoValues
  import opened Coercion

  /**
   The w lowest bits of n's infinite-precision two's-complement form.
   Euclidean halving rounds toward minus infinity, i.e. it is an arithmetic
   shift, so a negative n keeps shifting in ones.
   */
  function LowBits(n: int, w: nat): (r: seq<bool>)
    ensures |r| == w
    decreases w
  {
    if w == 0 then [] else [n % 2 == 1] + LowBits(n / 2, w - 1)
  }

  /** The value of a bit pattern read as an unsigned binary number. */
  function Unsigned(bits: seq<bool>): nat
  {
    if |bits| == 0 then 0 else (if bits[0] then 1 else 0) + 2 * Unsigned(bits[1..])
  }

  /**
   The value of a bit pattern of a given size: two's complement when signed.
   It lies in the range of a w-bit integer of that signedness.
   */
  function FromBits(bits: seq<bool>, signed: bool): (r: int)
    ensures !signed ==> 0 <= r < Pow2(|bits|)
    ensures signed && |bits| > 0 ==> -Pow2(|bits| - 1) <= r < Pow2(|bits| - 1)
  {
    UnsignedBound(bits);
    if |bits| == 0 then 0
    else
      TopBit(bits);
      if signed && bits[|bits| - 1] then Unsigned(bits) - Pow2(|bits|) else Unsigned(bits)
  }

  /** `T(x)` as the language defines it: extend, keep Width(T) bits, read them as T. */
  function Convert(n: int, k: IntKind): int
  {
    FromBits(LowBits(n, Width(k)), Signed(k))
  }

  /** A pattern of w bits reads as less than 2^w. */
  lemma {:induction false} UnsignedBound(bits: seq<bool>)
    ensures Unsigned(bits) < Pow2(|bits|)
  {
    if |bits| > 0 {
      UnsignedBound(bits[1..]);
    }
  }

  /** The top bit of a pattern is set exactly when it reads as at least half its range. */
  lemma {:induction false} TopBit(bits: seq<bool>)
    requires |bits| >= 1
    ensures bits[|bits| - 1] <==> Unsigned(bits) >= Pow2(|bits| - 1)
  {
    if |bits| > 1 {
      var rest := bits[1..];
      assert bits[|bits| - 1] == rest[|rest| - 1];
      TopBit(rest);
    }
  }

  /** Keeping the w lowest bits is reducing modulo 2^w. */
  lemma {:induction false} LowBitsValue(n: int, w: nat)
    ensures Unsigned(LowBits(n, w)) == n % Pow2(w)
    decreases w
  {
    if w > 0 {
      var bits := LowBits(n, w);
      assert bits[1..] == LowBits(n / 2, w - 1);
      LowBitsValue(n / 2, w - 1);
      ModDouble(n, Pow2(w - 1));
    }
  }

  /** Quotient and remainder are determined by any decomposition with a remainder in range. */
  lemma ModUnique(n: int, m: int, q: int, r: int)
    requires m > 0 && n == m * q + r && 0 <= r < m
    ensures n / m == q && n % m == r
  {
    var d := q - n / m;
    assert n % m - r == m * d;
    if d >= 1 {
      MultipleAtLeast(m, d);
    } else if d <= -1 {
      MultipleAtLeast(m, -d);
    }
  }

  /** Reducing modulo 2p takes the lowest bit, then reduces the rest modulo p. */
  lemma ModDouble(n: int, p: int)
    requires p > 0
    ensures n % (2 * p) == n % 2 + 2 * ((n / 2) % p)
  {
    var a, b := n / 2, n % 2;
    var c, d := a / p, a % p;
    assert n == (2 * p) * c + (2 * d + b);
    ModUnique(n, 2 * p, c, 2 * d + b);
  }

  /**
   Reading the Width(T) low bits of x as T gives x reduced modulo 2^width,
   shifted down by 2^width when T is signed and the top bit is set; the top
   bit is set exactly when the residue is at least half the modulus.
   */
  lemma ConvertResidue(n: int, k: IntKind)
    ensures var u := n % Modulus(k);
            var top := Signed(k) && u >= Half(k);
            Convert(n, k) == if top then u - Modulus(k) else u
  {
    var bits := LowBits(n, Width(k));
    LowBitsValue(n, Width(k));
    TopBit(bits);
    Pow2Width(k);
  }

  /** Subtracting the modulus from a residue keeps it congruent. */
  lemma ResidueCongruent(n: int, m: int, top: bool)
    requires m > 0
    ensures ((if top then n % m - m else n % m) - n) % m == 0
  {
    var q := n / m;
    if top {
      assert n % m - m - n == m * (-q - 1);
      MultipleMod(m, -q - 1);
    } else {
      assert n % m - n == m * (-q);
      MultipleMod(m, -q);
    }
  }

  /** The bit-level conversion lands in T's range, in x's residue class modulo 2^width(T). */
  lemma ConvertCharacterised(n: int, k: IntKind)
    ensures InRange(Convert(n, k), k)
    ensures (Convert(n, k) - n) % Modulus(k) == 0
  {
    var m := Modulus(k);
    ConvertResidue(n, k);
    HalfModulus(k);
    ResidueCongruent(n, m, Signed(k) && n % m >= Half(k));
  }

  /**
   The modular conversion used by `AnyToNumeric` is Go's conversion: extending
   and truncating bits gives the one value of T's range congruent to x.
   */
  lemma ConvertIsWrap(n: int, k: IntKind)
    ensures Convert(n, k) == Wrap(n, k)
  {
    ConvertCharacterised(n, k);
    WrapUnique(n, k, Convert(n, k));
  }

  /** For every well-formed integer, `AnyToNumeric[T]` computes exactly `T(x)`. */
  lemma AnyToNumericIsConversion(v: Value, t: IntKind)
    requires v.Integer? && Representable(v)
    ensures AnyToNumeric(v, t) == Converted(Convert(v.n, t), true)
  {
    ConvertIsWrap(v.n, t);
  }

  /** Converting preserves the Width(T) lowest bits: truncation drops only higher bits. */
  lemma {:induction false} ConvertKeepsLowBits(n: int, k: IntKind)
    ensures LowBits(Convert(n, k), Width(k)) == LowBits(n, Width(k))
  {
    ConvertCharacterised(n, k);
    Pow2Width(k);
    CongruentModLowBits(Convert(n, k), n, Width(k));
  }

  lemma CongruentModLowBits(a: int, b: int, w: nat)
    requires (a - b) % Pow2(w) == 0
    ensures LowBits(a, w) == LowBits(b, w)
  {
    var t := (a - b) / Pow2(w);
    assert a == b + Pow2(w) * t;
    CongruentLowBits(a, b, w, t);
  }

  /** Numbers that differ by a multiple of 2^w have the same w lowest bits. */
  lemma {:induction false} CongruentLowBits(a: int, b: int, w: nat, t: int)
    requires a == b + Pow2(w) * t
    ensures LowBits(a, w) == LowBits(b, w)
    decreases w
  {
    if w > 0 {
      var p := Pow2(w - 1);
      assert a == 2 * (b / 2 + p * t) + b % 2;
      ModUnique(a, 2, b / 2 + p * t, b % 2);
      CongruentLowBits(a / 2, b / 2, w - 1, t);
    }
  }
}
