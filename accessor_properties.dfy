/**
 Properties of the accessors that relate several calls: which default wins,
 what exact matching excludes, what absence and mismatch have in common, and
 how the integer getters, `Len` and `Navigator` agree with each other.
 */
module AccessorProperties {
  import opened GoValues
  import opened Coercion
  import opened Accessors

  /** Only the first default is honoured; any after it are ignored. */
  lemma OnlyFirstDefaultCounts<T>(nav: Navigator, q: Qual, cast: Value -> Option<T>, zero: T, d: T, rest: seq<T>)
    ensures GetTyped(nav, q, cast, zero, [d] + rest) == GetTyped(nav, q, cast, zero, [d])
    ensures nav.resolve(q).None? ==> GetTyped(nav, q, cast, zero, [d] + rest) == d
  {
  }

  /** The same rule for the integer getters. */
  lemma OnlyFirstIntegerDefaultCounts(nav: Navigator, q: Qual, k: IntKind, d: int, rest: seq<int>)
    ensures GetInteger(nav, q, k, [d] + rest) == GetInteger(nav, q, k, [d])
    ensures nav.resolve(q).None? ==> GetInteger(nav, q, k, [d] + rest) == d
    ensures nav.resolve(q).None? ==> GetInteger(nav, q, k, []) == 0
  {
  }

  /** `String` never turns a number into text, and `Bool` never turns text into a boolean. */
  lemma ExactMatchOnly(nav: Navigator, q: Qual, k: IntKind, n: int, s: GoString, ss: seq<GoString>, bs: seq<bool>)
    ensures nav.resolve(q) == Some(Integer(k, n)) ==> String(nav, q, ss) == FirstOr(ss, [])
    ensures nav.resolve(q) == Some(Str(s)) ==> Bool(nav, q, bs) == FirstOr(bs, false)
    ensures nav.resolve(q) == Some(Str(s)) ==> GetInteger(nav, q, k, []) == 0
  {
  }

  /** `Interface` returns the default for a stored nil, exactly as for an absent qualifier. */
  lemma InterfaceNilIsAbsent(present: Navigator, absent: Navigator, q: Qual, defaults: seq<Value>)
    requires present.resolve(q) == Some(Nil) && absent.resolve(q).None?
    ensures Interface(present, q, defaults) == Interface(absent, q, defaults) == FirstOr(defaults, Nil)
  {
  }

  /**
   An integer getter cannot tell an absent qualifier from a value that is not
   numeric, nor a stored zero from either when no default is given.
   */
  lemma AbsenceIndistinguishable(absent: Navigator, mismatched: Navigator, zero: Navigator, q: Qual, k: IntKind, defaults: seq<int>)
    requires absent.resolve(q).None?
    requires mismatched.resolve(q).Some? && !IsNumeric(mismatched.resolve(q).value)
    requires zero.resolve(q) == Some(Integer(k, 0))
    ensures GetInteger(absent, q, k, defaults) == GetInteger(mismatched, q, k, defaults)
    ensures GetInteger(absent, q, k, []) == GetInteger(zero, q, k, []) == 0
  {
  }

  /** A getter at least as wide as the stored integer's kind returns the stored value. */
  lemma WiderGetterReturnsValue(nav: Navigator, q: Qual, from: IntKind, n: int, k: IntKind, defaults: seq<int>)
    requires nav.resolve(q) == Some(Integer(from, n)) && InRange(n, from) && Widens(from, k)
    ensures GetInteger(nav, q, k, defaults) == n
  {
    WideningPreservesValue(n, from, k);
  }

  /**
   For integer values and absence, reading through a narrower getter is reading
   through a wider one and converting: `Int8(q)` is `int8(Int64(q))`.
   */
  lemma {:induction false} NarrowGetterThroughWide(nav: Navigator, q: Qual, wide: IntKind, narrow: IntKind)
    requires Width(narrow) <= Width(wide)
    requires ResolvesRepresentable(nav, q)
    requires nav.resolve(q).None? || !nav.resolve(q).value.Float?
    ensures GetInteger(nav, q, narrow, []) == Wrap(GetInteger(nav, q, wide, []), narrow)
  {
    match nav.resolve(q)
    case None =>
      WrapIdentity(0, narrow);
    case Some(v) =>
      if v.Integer? {
        assert GetInteger(nav, q, wide, []) == Wrap(v.n, wide);
        assert GetInteger(nav, q, narrow, []) == Wrap(v.n, narrow);
        WrapThrough(v.n, wide, narrow);
      } else {
        assert GetInteger(nav, q, wide, []) == 0 == GetInteger(nav, q, narrow, []);
        WrapIdentity(0, narrow);
      }
  }

  /** `Int(q, 7)`: 7 when absent or text, 42 for the float 42.9, -1 for an int8 holding -1. */
  lemma IntExamples(q: Qual)
    ensures GetInteger(Navigator(_ => None), q, Int, [7]) == 7
    ensures GetInteger(Navigator(_ => Some(Str([104, 105]))), q, Int, [7]) == 7
    ensures GetInteger(Navigator(_ => Some(Float(true, 42.9))), q, Int, [7]) == 42
    ensures GetInteger(Navigator(_ => Some(Integer(Int8, -1))), q, Int, [7]) == -1
    ensures GetInteger(Navigator(_ => Some(Integer(Int, -1))), q, Uint8, [7]) == 255
  {
  }

  /** `Len`: -1 when absent, 5 for a five-element list, -1 for a struct, bytes for a string. */
  lemma LenExamples(q: Qual, x: Value, t: OtherType)
    requires t.kind.UnsizedKind?
    ensures Len(Navigator(_ => None), q) == -1
    ensures Len(Navigator(_ => Some(List([x, x, x, x, x]))), q) == 5
    ensures Len(Navigator(_ => Some(Opaque(t, 3))), q) == -1
    ensures Len(Navigator(_ => Some(Str([0xC3, 0xA9]))), q) == 2
    ensures Len(Navigator(_ => Some(Integer(Int, 12))), q) == -1
  {
  }

  /** A sub-navigator over a map or list has exactly as many elements as `Len` reports. */
  lemma NavigateAgreesWithLen(nav: Navigator, q: Qual)
    ensures Navigate(nav, q).FromMap? ==> Len(nav, q) == |Navigate(nav, q).entries|
    ensures Navigate(nav, q).FromList? ==> Len(nav, q) == |Navigate(nav, q).items|
  {
  }

  /** `Navigator(q)` over a plain integer is nil; over a map it is that map. */
  lemma NavigateExamples(q: Qual, m: map<GoString, Value>)
    ensures Navigate(Navigator(_ => Some(Integer(Int, 3))), q) == NoNavigator
    ensures Navigate(Navigator(_ => Some(Dict(m))), q) == FromMap(m)
    ensures Navigate(Navigator(_ => None), q) == NoNavigator
  {
  }

  /**
   `SafeInterface(q, "")`: a text value comes back when string is assignable to
   string; an integer value gives "" when string is not assignable to int.
   */
  lemma SafeInterfaceExamples(q: Qual, s: GoString, n: int, assignable: (GoType, GoType) -> bool)
    requires assignable(StringType, StringType)
    requires !assignable(StringType, IntegerType(Int))
    ensures SafeInterface(Navigator(_ => Some(Str(s))), q, Str([]), assignable) == Str(s)
    ensures SafeInterface(Navigator(_ => Some(Integer(Int, n))), q, Str([]), assignable) == Str([])
  {
  }
}
