/**
 The numeric-coercion rule `AnyToNumeric[T]` for the ten integer targets.

 Go converts between integer types by sign- or zero-extending the source and
 truncating to the target's width, so the result is the one value of the
 target's range that is congruent to the source modulo 2^width. `Wrap` states
 that directly; `AnyToNumeric` is the type switch that uses it.
 */
module Coercion {
  import opened GoValues

  /** The named results `(val T, ok bool)`. */
  datatype Converted = Converted(val: int, ok: bool)

  /**
   Integer conversion `T(x)`: shift the signed range to start at 0, reduce
   modulo 2^width(T), shift back. The result is the value of T's range
   congruent to n modulo 2^width(T).
   */
  function Wrap(n: int, k: IntKind): (r: int)
    ensures InRange(r, k)
    ensures (r - n) % Modulus(k) == 0
  {
    var shift := if Signed(k) then Half(k) else 0;
    HalfModulus(k);
    ShiftedResidue(n, shift, Modulus(k));
    (n + shift) % Modulus(k) - shift
  }

  lemma HalfModulus(k: IntKind)
    ensures Modulus(k) == 2 * Half(k) && Half(k) > 0
  {
  }

  /** Reducing a shifted value and shifting back stays in n's residue class. */
  lemma ShiftedResidue(n: int, shift: int, m: int)
    requires m > 0
    ensures ((n + shift) % m - shift - n) % m == 0
  {
    var q := (n + shift) / m;
    assert (n + shift) % m - shift - n == m * (-q);
    MultipleMod(m, -q);
  }

  lemma MultipleAtLeast(m: int, c: int)
    requires m > 0 && c >= 1
    ensures m * c >= m
  {
    assert m * c == m * (c - 1) + m;
  }

  /** A multiple of m leaves remainder 0. */
  lemma MultipleMod(m: int, c: int)
    requires m > 0
    ensures (m * c) % m == 0
  {
    var d, r := (m * c) / m, (m * c) % m;
    assert m * (c - d) == r;
    if c - d >= 1 {
      MultipleAtLeast(m, c - d);
    } else if c - d <= -1 {
      MultipleAtLeast(m, d - c);
    }
  }

  /** There is exactly one value of k's range in each residue class modulo 2^width(k). */
  lemma WrapUnique(n: int, k: IntKind, x: int)
    requires InRange(x, k) && (x - n) % Modulus(k) == 0
    ensures x == Wrap(n, k)
  {
    var r := Wrap(n, k);
    var m := Modulus(k);
    HalfModulus(k);
    CongruentTrans(x, n, r, m);
    var q := (x - r) / m;
    assert x - r == m * q;
    if q >= 1 {
      MultipleAtLeast(m, q);
    } else if q <= -1 {
      MultipleAtLeast(m, -q);
    }
  }

  /** Congruence modulo m is transitive (and symmetric in its second premise). */
  lemma CongruentTrans(a: int, b: int, c: int, m: int)
    requires m > 0
    requires (a - b) % m == 0
    requires (c - b) % m == 0 || (b - c) % m == 0
    ensures (a - c) % m == 0
  {
    var p := (a - b) / m;
    assert a - b == m * p;
    if (c - b) % m == 0 {
      var q := (c - b) / m;
      assert a - c == m * (p - q);
      MultipleMod(m, p - q);
    } else {
      var q := (b - c) / m;
      assert a - c == m * (p + q);
      MultipleMod(m, p + q);
    }
  }

  /** Converting a value that already fits the target leaves it unchanged. */
  lemma WrapIdentity(n: int, k: IntKind)
    requires InRange(n, k)
    ensures Wrap(n, k) == n
  {
    WrapUnique(n, k, n);
  }

  /** Truncating to a width and then to a narrower one is truncating to the narrower one. */
  lemma {:induction false} WrapThrough(n: int, a: IntKind, b: IntKind)
    requires Width(b) <= Width(a)
    ensures Wrap(Wrap(n, a), b) == Wrap(n, b)
  {
    var x := Wrap(n, a);
    var y := Wrap(x, b);
    assert (x - n) % Modulus(b) == 0 by {
      NarrowerModulus(x - n, a, b);
    }
    assert (y - n) % Modulus(b) == 0 by {
      CongruentTrans(y, x, n, Modulus(b));
    }
    WrapUnique(n, b, y);
  }

  lemma NarrowerModulus(d: int, a: IntKind, b: IntKind)
    requires Width(b) <= Width(a) && d % Modulus(a) == 0
    ensures d % Modulus(b) == 0
  {
    Pow2Width(a);
    Pow2Width(b);
    Pow2Add(Width(b), Width(a) - Width(b));
    DividesMultiple(d, Modulus(b), Pow2(Width(a) - Width(b)));
  }

  /** A multiple of m * c is a multiple of m. */
  lemma DividesMultiple(d: int, m: int, c: int)
    requires m > 0 && c >= 1 && d % (m * c) == 0
    ensures d % m == 0
  {
    MultipleAtLeast(m, c);
    var q := d / (m * c);
    assert d == m * (c * q);
    MultipleMod(m, c * q);
  }

  /** 2 to the power w. */
  function Pow2(w: nat): (r: int)
    ensures r >= 1
  {
    if w == 0 then 1 else 2 * Pow2(w - 1)
  }

  lemma {:induction false} Pow2Add(a: nat, b: nat)
    ensures Pow2(a + b) == Pow2(a) * Pow2(b)
  {
    if a > 0 {
      Pow2Add(a - 1, b);
    }
  }

  lemma Pow2Values()
    ensures Pow2(8) == 0x100 && Pow2(16) == 0x1_0000
    ensures Pow2(32) == 0x1_0000_0000 && Pow2(64) == 0x1_0000_0000_0000_0000
  {
    assert Pow2(4) == 16;
    Pow2Add(4, 4);
    Pow2Add(8, 8);
    Pow2Add(16, 16);
    Pow2Add(32, 32);
  }

  lemma Pow2Width(k: IntKind)
    ensures Pow2(Width(k)) == Modulus(k)
    ensures Pow2(Width(k) - 1) == Half(k)
  {
    Pow2Values();
    HalfModulus(k);
    assert Pow2(Width(k)) == 2 * Pow2(Width(k) - 1);
  }

  /** Converting a float to an integer type discards the fraction: truncation toward zero. */
  function Trunc(x: real): (r: int)
    ensures 0.0 <= x ==> r as real <= x < r as real + 1.0
    ensures x < 0.0 ==> r as real - 1.0 < x <= r as real
  {
    if x >= 0.0 then x.Floor else -((-x).Floor)
  }

  /** Truncation is symmetric about zero, unlike rounding down: -2.5 gives -2, not -3. */
  lemma TruncSymmetric(x: real)
    ensures Trunc(-x) == -Trunc(x)
    ensures Trunc(-2.5) == -2 && (-2.5).Floor == -3
  {
  }

  /**
   `AnyToNumeric[T]` for an integer target T: an exact type match is returned as
   is, any other of the twelve numeric kinds is converted, and anything else
   fails with the zero value.
   */
  function AnyToNumeric(v: Value, t: IntKind): (r: Converted)
    ensures r.ok <==> IsNumeric(v)
    ensures !r.ok ==> r.val == 0
    ensures v.Integer? && v.kind == t ==> r == Converted(v.n, true)
    ensures v.Integer? && Representable(v) ==> r == Converted(Wrap(v.n, t), true)
    ensures v.Float? && InRange(Trunc(v.x), t) ==> r == Converted(Trunc(v.x), true)
    ensures Representable(v) ==> InRange(r.val, t)
  {
    match v
    case Integer(k, n) =>
      assert InRange(n, t) ==> Wrap(n, t) == n by {
        if InRange(n, t) { WrapIdentity(n, t); }
      }
      Converted(if k == t then n else Wrap(n, t), true)
    case Float(_, x) =>
      assert InRange(Trunc(x), t) ==> Wrap(Trunc(x), t) == Trunc(x) by {
        if InRange(Trunc(x), t) { WrapIdentity(Trunc(x), t); }
      }
      Converted(Wrap(Trunc(x), t), true)
    case _ =>
      Converted(0, false)
  }

  /** Every value of `from` is also a value of `to`. */
  predicate Widens(from: IntKind, to: IntKind)
  {
    MinOf(to) <= MinOf(from) && MaxOf(from) <= MaxOf(to)
  }

  /** A widening conversion (int8 to int16, uint32 to int64, ...) preserves the value. */
  lemma WideningPreservesValue(n: int, from: IntKind, to: IntKind)
    requires InRange(n, from) && Widens(from, to)
    ensures AnyToNumeric(Integer(from, n), to) == Converted(n, true)
  {
    WrapIdentity(n, to);
  }

  /** Widening and converting back gives the original value. */
  lemma WidenThenNarrowRoundTrip(n: int, from: IntKind, to: IntKind)
    requires InRange(n, from) && Widens(from, to)
    ensures AnyToNumeric(Integer(to, AnyToNumeric(Integer(from, n), to).val), from) == Converted(n, true)
  {
    WideningPreservesValue(n, from, to);
    WrapIdentity(n, from);
  }

  /** Converting through a type at least as wide as the target gives the same result as converting directly. */
  lemma {:induction false} ConvertThroughWider(n: int, from: IntKind, mid: IntKind, to: IntKind)
    requires InRange(n, from) && Width(to) <= Width(mid)
    ensures var x := AnyToNumeric(Integer(from, n), mid).val;
            AnyToNumeric(Integer(mid, x), to) == AnyToNumeric(Integer(from, n), to)
  {
    WrapThrough(n, mid, to);
  }

  /** Reinterpreting between the signed and unsigned kind of one width and back is the identity. */
  lemma SameWidthRoundTrip(n: int, a: IntKind, b: IntKind)
    requires InRange(n, a) && Width(a) == Width(b)
    ensures AnyToNumeric(Integer(b, AnyToNumeric(Integer(a, n), b).val), a) == Converted(n, true)
  {
    ConvertThroughWider(n, a, b, a);
    WrapIdentity(n, a);
  }

  /** int -1 converted to uint8 is 255; int 300 to uint8 is 44; int 200 to int8 is -56. */
  lemma ConversionExamples()
    ensures AnyToNumeric(Integer(Int, -1), Uint8) == Converted(255, true)
    ensures AnyToNumeric(Integer(Int, 300), Uint8) == Converted(44, true)
    ensures AnyToNumeric(Integer(Int, 200), Int8) == Converted(-56, true)
    ensures AnyToNumeric(Integer(Int8, -1), Uint64) == Converted(0xFFFF_FFFF_FFFF_FFFF, true)
  {
  }

  /** A float64 holding 42.9 converts to int 42 and -3.7 to int8 -3: truncation, not rounding. */
  lemma FloatTruncationExample()
    ensures AnyToNumeric(Float(true, 42.9), Int) == Converted(42, true)
    ensures AnyToNumeric(Float(false, -3.7), Int8) == Converted(-3, true)
    ensures AnyToNumeric(Float(true, 0.5), Uint8) == Converted(0, true)
  {
  }

  /** A string, a boolean or the nil interface fails with the zero value. */
  lemma NonNumericFails(v: Value, t: IntKind)
    requires v.Nil? || v.Str? || v.Boolean? || v.Complex? || v.Dict? || v.List? || v.Opaque?
    ensures AnyToNumeric(v, t) == Converted(0, false)
  {
  }
}
