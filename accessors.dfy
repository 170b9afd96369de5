/**
 The typed accessors of `Navigator`: each asks the resolver for the value at a
 qualifier and then matches, converts or measures it, falling back to the
 caller's first default (or the zero value) whenever the value is absent or of
 the wrong type. Absence, type mismatch and conversion failure are one outcome.
 */
module Accessors {
  import opened GoValues
  import opened Coercion

  /** A qualifier (`IQual`): an opaque path; nothing here looks inside it. */
  datatype Qual = Qual(path: seq<GoString>)

  /**
   A navigator, seen through its resolver `QualGet`: for a fixed backing state
   a total, deterministic map from qualifiers to an optional value.
   */
  datatype Navigator = Navigator(resolve: Qual -> Option<Value>)

  /** The variadic `_default ...T`: its first element if there is one, else T's zero value. */
  function FirstOr<T>(defaults: seq<T>, zero: T): T
  {
    if |defaults| > 0 then defaults[0] else zero
  }

  /**
   `getTyped[T]`: the resolved value when its dynamic type is exactly T, and
   the default otherwise. `cast` is the type assertion `val.(T)`.
   */
  function GetTyped<T>(nav: Navigator, q: Qual, cast: Value -> Option<T>, zero: T, defaults: seq<T>): (r: T)
    ensures r == FirstOr(defaults, zero) || (nav.resolve(q).Some? && cast(nav.resolve(q).value) == Some(r))
    ensures nav.resolve(q).Some? && cast(nav.resolve(q).value).Some? ==> r == cast(nav.resolve(q).value).value
    ensures nav.resolve(q).None? || cast(nav.resolve(q).value).None? ==> r == FirstOr(defaults, zero)
  {
    match nav.resolve(q)
    case Some(v) =>
      (match cast(v)
       case Some(x) => x
       case None => FirstOr(defaults, zero))
    case None => FirstOr(defaults, zero)
  }

  // The type assertions `val.(T)` for the exact-match getters.

  function AsString(v: Value): Option<GoString>
  {
    if v.Str? then Some(v.s) else None
  }

  function AsBool(v: Value): Option<bool>
  {
    if v.Boolean? then Some(v.b) else None
  }

  function AsComplex64(v: Value): Option<nat>
  {
    if v.Complex? && !v.wideC then Some(v.bits) else None
  }

  function AsComplex128(v: Value): Option<nat>
  {
    if v.Complex? && v.wideC then Some(v.bits) else None
  }

  /** Asserting to `any` succeeds for every value except the nil interface. */
  function AsAny(v: Value): Option<Value>
  {
    if v.Nil? then None else Some(v)
  }

  /** `Interface`: the resolved value unless it is absent or nil. */
  function Interface(nav: Navigator, q: Qual, defaults: seq<Value>): (r: Value)
    ensures nav.resolve(q).Some? && !nav.resolve(q).value.Nil? ==> r == nav.resolve(q).value
    ensures nav.resolve(q).None? || nav.resolve(q).value.Nil? ==> r == FirstOr(defaults, Nil)
  {
    GetTyped(nav, q, AsAny, Nil, defaults)
  }

  /** `String`: a string value only; no other value is converted to text. */
  function String(nav: Navigator, q: Qual, defaults: seq<GoString>): (r: GoString)
    ensures nav.resolve(q).Some? && nav.resolve(q).value.Str? ==> r == nav.resolve(q).value.s
    ensures nav.resolve(q).None? || !nav.resolve(q).value.Str? ==> r == FirstOr(defaults, [])
  {
    GetTyped(nav, q, AsString, [], defaults)
  }

  /** `Bool`: a boolean value only; no other value is converted to a boolean. */
  function Bool(nav: Navigator, q: Qual, defaults: seq<bool>): (r: bool)
    ensures nav.resolve(q).Some? && nav.resolve(q).value.Boolean? ==> r == nav.resolve(q).value.b
    ensures nav.resolve(q).None? || !nav.resolve(q).value.Boolean? ==> r == FirstOr(defaults, false)
  {
    GetTyped(nav, q, AsBool, false, defaults)
  }

  /** `Complex64`: a complex64 value only; a complex128 is not narrowed. */
  function Complex64(nav: Navigator, q: Qual, defaults: seq<nat>): (r: nat)
    ensures nav.resolve(q).Some? && nav.resolve(q).value.Complex? && !nav.resolve(q).value.wideC
            ==> r == nav.resolve(q).value.bits
    ensures nav.resolve(q).None? || !nav.resolve(q).value.Complex? || nav.resolve(q).value.wideC
            ==> r == FirstOr(defaults, 0)
  {
    GetTyped(nav, q, AsComplex64, 0, defaults)
  }

  /** `Complex128`: a complex128 value only; a complex64 is not widened. */
  function Complex128(nav: Navigator, q: Qual, defaults: seq<nat>): (r: nat)
    ensures nav.resolve(q).Some? && nav.resolve(q).value.Complex? && nav.resolve(q).value.wideC
            ==> r == nav.resolve(q).value.bits
    ensures nav.resolve(q).None? || !nav.resolve(q).value.Complex? || !nav.resolve(q).value.wideC
            ==> r == FirstOr(defaults, 0)
  {
    GetTyped(nav, q, AsComplex128, 0, defaults)
  }

  /** The resolved value, if any, is a well-formed Go value. */
  predicate ResolvesRepresentable(nav: Navigator, q: Qual)
  {
    nav.resolve(q).Some? ==> Representable(nav.resolve(q).value)
  }

  /**
   The integer getters `Int`, `Int64`, `Int32`, `Int16`, `Int8`, `Uint`,
   `Uint64`, `Uint32`, `Uint16` and `Uint8`, each of which is this function
   with `k` fixed: a numeric value is converted by `AnyToNumeric`, anything
   else, and absence, gives the default.
   */
  function GetInteger(nav: Navigator, q: Qual, k: IntKind, defaults: seq<int>): (r: int)
    ensures nav.resolve(q).Some? && IsNumeric(nav.resolve(q).value)
            ==> r == AnyToNumeric(nav.resolve(q).value, k).val
    ensures nav.resolve(q).None? || !IsNumeric(nav.resolve(q).value) ==> r == FirstOr(defaults, 0)
    ensures ResolvesRepresentable(nav, q) && InRange(FirstOr(defaults, 0), k) ==> InRange(r, k)
  {
    var d := FirstOr(defaults, 0);
    match nav.resolve(q)
    case Some(v) =>
      var c := AnyToNumeric(v, k);
      if c.ok then c.val else d
    case None => d
  }

  /**
   `Len`: the length of a channel, map, array, slice or string (a string's
   length in bytes), and -1 when the qualifier is absent or the value has no length.
   */
  function Len(nav: Navigator, q: Qual): (r: int)
    ensures r >= -1
    ensures r == -1 <==> nav.resolve(q).None? || !HasLength(KindOf(nav.resolve(q).value))
    ensures nav.resolve(q).Some? && HasLength(KindOf(nav.resolve(q).value)) ==> r == Count(nav.resolve(q).value)
  {
    match nav.resolve(q)
    case None => -1
    case Some(v) =>
      match KindOf(v)
      case ChanKind | MapKind | ArrayKind | SliceKind | StringKind => Count(v)
      case _ => -1
  }

  /** What a call that may panic does. */
  datatype Outcome = Returns(value: Value) | Panics

  /**
   `SafeInterface` as written: when the qualifier resolves it calls
   `reflect.TypeOf(defaultVal).AssignableTo(reflect.TypeOf(val))`, asking
   whether the DEFAULT's type is assignable to the resolved value's type. The
   reflected type of the nil interface is nil, so a nil default (a nil
   receiver) or a resolved nil (a nil argument) panics there. An absent
   qualifier returns the default before `reflect` is reached, nil or not.
   `assignable` stands for `reflect.Type.AssignableTo`.
   */
  function SafeInterfaceAsWritten(nav: Navigator, q: Qual, defaultVal: Value, assignable: (GoType, GoType) -> bool): (r: Outcome)
    ensures r.Panics? <==> nav.resolve(q).Some? && (nav.resolve(q).value.Nil? || defaultVal.Nil?)
    ensures r.Returns? ==> r.value == defaultVal || nav.resolve(q) == Some(r.value)
    ensures nav.resolve(q).None? ==> r == Returns(defaultVal)
  {
    match nav.resolve(q)
    case None => Returns(defaultVal)
    case Some(v) =>
      if defaultVal.Nil? || v.Nil? then Panics
      else if assignable(TypeOf(defaultVal), TypeOf(v)) then Returns(v)
      else Returns(defaultVal)
  }

  /** A resolved nil makes the code as written panic, whatever the default. */
  lemma SafeInterfacePanicsOnNil(defaultVal: Value, assignable: (GoType, GoType) -> bool)
    ensures SafeInterfaceAsWritten(Navigator(_ => Some(Nil)), Qual([]), defaultVal, assignable) == Panics
  {
  }

  /** A nil default panics only once the qualifier resolves; an absent one returns nil. */
  lemma SafeInterfaceNilDefault(q: Qual, x: Value, assignable: (GoType, GoType) -> bool)
    ensures SafeInterfaceAsWritten(Navigator(_ => None), q, Nil, assignable) == Returns(Nil)
    ensures SafeInterfaceAsWritten(Navigator(_ => Some(x)), q, Nil, assignable) == Panics
  {
  }

  /**
   `SafeInterface` with the nil value treated as the comment above it promises
   for a value whose type is not assignable: the default is returned. Otherwise
   it is the code as written, with the same argument order. A nil default with
   a resolving qualifier still has no assignability question to answer, so it
   stays excluded.
   */
  function SafeInterface(nav: Navigator, q: Qual, defaultVal: Value, assignable: (GoType, GoType) -> bool): (r: Value)
    requires nav.resolve(q).Some? ==> !defaultVal.Nil?
    ensures r == defaultVal || nav.resolve(q) == Some(r)
    ensures !defaultVal.Nil? ==> !r.Nil?
    ensures r != defaultVal ==> !r.Nil? && !defaultVal.Nil? && assignable(TypeOf(defaultVal), TypeOf(r))
    ensures nav.resolve(q).Some? && !nav.resolve(q).value.Nil?
            && assignable(TypeOf(defaultVal), TypeOf(nav.resolve(q).value))
            ==> r == nav.resolve(q).value
  {
    match nav.resolve(q)
    case None => defaultVal
    case Some(v) =>
      if !v.Nil? && assignable(TypeOf(defaultVal), TypeOf(v)) then v else defaultVal
  }

  /** Wherever the code as written does not panic, the corrected accessor returns what it returns. */
  lemma SafeInterfaceAgrees(nav: Navigator, q: Qual, defaultVal: Value, assignable: (GoType, GoType) -> bool)
    requires nav.resolve(q).Some? ==> !defaultVal.Nil?
    ensures var w := SafeInterfaceAsWritten(nav, q, defaultVal, assignable);
            w.Returns? ==> w.value == SafeInterface(nav, q, defaultVal, assignable)
    ensures nav.resolve(q) == Some(Nil) ==> SafeInterface(nav, q, defaultVal, assignable) == defaultVal
  {
  }

  /** The navigator `Navigator(qual)` builds over a nested value. */
  datatype SubNavigator =
    | NoNavigator
    | FromMap(entries: map<GoString, Value>)
    | FromList(items: seq<Value>)
    | FromSource(ty: OtherType, len: nat)

  /** The value a sub-navigator is backed by. */
  function Backing(s: SubNavigator): Value
    requires !s.NoNavigator?
  {
    match s
    case FromMap(m) => Dict(m)
    case FromList(xs) => List(xs)
    case FromSource(t, n) => Opaque(t, n)
  }

  /** A `map[string]any`, a `[]any`, or a value whose type implements `ISource`. */
  predicate Navigable(v: Value)
  {
    v.Dict? || v.List? || (v.Opaque? && v.ty.isSource)
  }

  /**
   `Navigator(qual)`: a navigator over exactly the resolved value when it is a
   map, a list or a source, and nil otherwise.
   */
  function Navigate(nav: Navigator, q: Qual): (r: SubNavigator)
    ensures r.NoNavigator? <==> nav.resolve(q).None? || !Navigable(nav.resolve(q).value)
    ensures !r.NoNavigator? ==> nav.resolve(q) == Some(Backing(r))
    ensures r.FromSource? ==> r.ty.isSource
  {
    match nav.resolve(q)
    case Some(Dict(m)) => FromMap(m)
    case Some(List(xs)) => FromList(xs)
    case Some(Opaque(t, n)) => if t.isSource then FromSource(t, n) else NoNavigator
    case _ => NoNavigator
  }
}
