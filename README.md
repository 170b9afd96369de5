# flexmap typed accessors, in Dafny

A model of the typed-accessor layer of the Go package `delve` (file
`get-types.go`). A `Navigator` resolves a qualifier (a path into nested maps,
lists and "source" objects) to a dynamically typed value; the accessors turn
that value into a string, a boolean, a complex number, one of ten integer
types, a length, or a sub-navigator, and fall back to the caller's default
whenever the qualifier is absent or the value has the wrong type.

The model is pure, like the code: every accessor is a Dafny function of the
resolver, the qualifier and the defaults.

- `GoValues` (`go_values.dfy`): Go values held in an `any` as a tagged union
  (`Value`), the ten integer kinds with their widths and ranges (`int` and
  `uint` are 64 bits), dynamic types (`GoType`) and the reflect kinds that
  `Len` distinguishes. Strings are byte sequences, so their length is in bytes.
- `Coercion` (`coercion.dfy`): `AnyToNumeric` for integer targets and `Wrap`,
  Go's integer conversion: extend, then truncate to the target's width, which
  gives the one value of the target's range congruent to the source modulo
  2^width.
- `ConversionBits` (`conversion_bits.dfy`): the same conversion defined
  independently on two's-complement bits (`Convert`: sign- or zero-extend,
  keep the target's number of low bits, read them back as the target type),
  with the proof that it equals `Wrap`.
- `Accessors` (`accessors.dfy`): `getTyped` and its instantiations, the
  integer getters, `Len`, `SafeInterface` and `Navigator` (here `Navigate`,
  returning a `SubNavigator`).
- `AccessorProperties` (`accessor_properties.dfy`): lemmas that relate calls.

Modelling choices:
- The resolver `QualGet` is the field `resolve: Qual -> Option<Value>` of
  `Navigator`; `IQual` is an opaque path. `QualGet`, `IQual`, `ISource`,
  `FromMap`, `FromList` and `New` are not part of this model.
- The ten Go integer getters (`Int` ... `Uint8`, lines 115-253) have identical
  bodies up to the type; they are one function `GetInteger` with the kind as
  a parameter. `Interface`, `String`, `Bool`, `Complex64` and `Complex128` are
  `GetTyped` with the type assertion `val.(T)` passed as `cast`.
- The variadic default is a sequence; `FirstOr` takes its first element or
  the zero value.
- A float carries its value as a real; `Trunc` is the float-to-integer
  conversion. A complex number is an opaque bit pattern.
- `reflect.Type.AssignableTo` is the parameter `assignable`, applied as the
  code applies it at line 84: `assignable(type of default, type of value)`.
  The doc comment at line 77 states the opposite direction; the model follows
  the code.
- A nil `defaultVal` makes `SafeInterface` panic when the qualifier resolves;
  an absent qualifier returns the nil default. The code as written is modelled
  with both panics; the corrected accessor requires a non-nil default only
  when the qualifier resolves.
- The nil interface is a value (`Nil`): `val.(any)` fails on it, `Len` gives
  -1, `AnyToNumeric` fails, and `Navigator` gives nil.

## Model

| member | source | states |
|---|---|---|
| `Coercion.Wrap` | get-types.go:18-37 | the converted integer lies in the target's range and is congruent to the source modulo 2^width |
| `Coercion.WrapUnique` | get-types.go:18-37 | the conversion result is the only value of the target's range congruent to the source, so `Wrap` is Go's conversion and no other |
| `Coercion.WrapIdentity` | get-types.go:18-37 | converting a value that fits the target leaves it unchanged |
| `Coercion.WrapThrough` | get-types.go:18-37 | truncating to a width and then to a narrower width equals truncating to the narrower width directly |
| `Coercion.AnyToNumeric` | get-types.go:9-42 | ok holds exactly for the twelve numeric kinds; failure yields 0; an exact kind match returns the value unchanged; any integer converts to its wrapped value; an in-range float gives its value truncated toward zero; a well-formed input always gives a result in the target's range |
| `Coercion.WideningPreservesValue` | get-types.go:18-37 | a conversion to a type whose range contains the source's range succeeds and preserves the value |
| `Coercion.WidenThenNarrowRoundTrip` | get-types.go:18-37 | widening and converting back returns the original value |
| `Coercion.ConvertThroughWider` | get-types.go:18-37 | converting via an intermediate type at least as wide as the target equals converting directly |
| `Coercion.SameWidthRoundTrip` | get-types.go:18-37 | signed to unsigned of the same width and back (or the reverse) is the identity |
| `Coercion.ConversionExamples` | get-types.go:18-19 | int -1 gives uint8 255, int 300 gives uint8 44, int 200 gives int8 -56, int8 -1 gives uint64 2^64-1 |
| `ConversionBits.FromBits` | get-types.go:18-37 | reading w bits as an unsigned type gives a value in [0, 2^w), and as a signed type a value in [-2^(w-1), 2^(w-1)) |
| `ConversionBits.LowBitsValue` | get-types.go:18-37 | keeping the w low bits of a sign-extended integer leaves a pattern whose unsigned value is the integer modulo 2^w |
| `ConversionBits.TopBit` | get-types.go:18-37 | the top bit of a pattern is set exactly when its unsigned value is at least half its range, which is what makes it read as negative in a signed type |
| `ConversionBits.ConvertCharacterised` | get-types.go:18-37 | the bit-level conversion lands in the target's range and in the source's residue class modulo 2^width |
| `ConversionBits.ConvertIsWrap` | get-types.go:18-37 | the bit-level conversion (extend, truncate, reinterpret) and the modular `Wrap` agree on every integer and every target type |
| `ConversionBits.AnyToNumericIsConversion` | get-types.go:9-37 | for every well-formed integer value, `AnyToNumeric` returns ok and exactly the bit-level conversion `T(x)` |
| `ConversionBits.ConvertKeepsLowBits` | get-types.go:18-37 | a conversion preserves the target's number of low bits of the source: only higher bits are dropped |
| `Coercion.Trunc` | get-types.go:14-17 | a float converts to the integer next to it on the side of zero: at most x and within 1 below it for x >= 0, at least x and within 1 above it for x < 0 |
| `Coercion.TruncSymmetric` | get-types.go:14-17 | truncation is symmetric about zero, so it is not rounding down: -2.5 gives -2 where the floor is -3 |
| `Coercion.FloatTruncationExample` | get-types.go:14-17 | float64 42.9 converts to int 42, float32 -3.7 to int8 -3 and 0.5 to uint8 0: truncation toward zero, not rounding |
| `Coercion.NonNumericFails` | get-types.go:38-41 | text, booleans, complex numbers, containers, other types and nil give ok=false and 0 |
| `Accessors.GetTyped` | get-types.go:44-55 | the result is the resolved value exactly when it resolves and has exactly type T; otherwise the first default, or the zero value when none is given |
| `Accessors.Interface` | get-types.go:90-93 | the resolved value unless it is absent or the nil interface, in which case the first default or nil |
| `Accessors.String` | get-types.go:95-98 | a string value is returned; anything else, including a number, gives the first default or "" |
| `Accessors.Bool` | get-types.go:100-103 | a boolean value is returned; anything else, including text, gives the first default or false |
| `Accessors.Complex64` | get-types.go:105-108 | only a complex64 value is returned; a complex128 is not narrowed |
| `Accessors.Complex128` | get-types.go:110-113 | only a complex128 value is returned; a complex64 is not widened |
| `Accessors.GetInteger` | get-types.go:115-253 | a present numeric value gives `AnyToNumeric`'s result; absence or a non-numeric value gives the first default or 0; the result lies in the getter's range when the default does |
| `Accessors.Len` | get-types.go:57-74 | the result is at least -1; it is -1 exactly when the qualifier is absent or the value's kind is not chan, map, array, slice or string; otherwise it is the value's length |
| `Accessors.SafeInterfaceAsWritten` | get-types.go:79-88 | the code as written: panics exactly when the qualifier resolves and the resolved value or the default is the nil interface; an absent qualifier returns the default; otherwise it returns the default or the resolved value |
| `Accessors.SafeInterfacePanicsOnNil` | get-types.go:84 | a resolver that returns nil makes the code as written panic for every default |
| `Accessors.SafeInterfaceNilDefault` | get-types.go:80-84 | a nil default is returned unchanged for an absent qualifier and panics for a resolving one |
| `Accessors.SafeInterface` | get-types.go:79-88 | returns the default or the resolved value, never nil unless the default is nil (possible only for an absent qualifier); the resolved value exactly when it is present, not nil, and the default's type is assignable to its type |
| `Accessors.SafeInterfaceAgrees` | get-types.go:79-88 | wherever the code as written returns, the corrected accessor returns the same value; for a stored nil it returns the default |
| `Accessors.Navigate` | get-types.go:283-295 | nil exactly when the qualifier is absent or the value is not a `map[string]any`, a `[]any` or an `ISource`; otherwise a navigator backed by exactly the resolved value |
| `AccessorProperties.OnlyFirstDefaultCounts` | get-types.go:45-48 | defaults after the first are ignored; an absent qualifier gives the first default |
| `AccessorProperties.OnlyFirstIntegerDefaultCounts` | get-types.go:116-120 | the same for the integer getters, and an absent qualifier without defaults gives 0 |
| `AccessorProperties.ExactMatchOnly` | get-types.go:49-54 | `String` on a number and `Bool` on text give the default; an integer getter on text gives 0 |
| `AccessorProperties.InterfaceNilIsAbsent` | get-types.go:49-54 | `Interface` on a stored nil returns what it returns for an absent qualifier |
| `AccessorProperties.AbsenceIndistinguishable` | get-types.go:121-126 | absence and a non-numeric value give the same integer result; without a default a stored 0 does too |
| `AccessorProperties.WiderGetterReturnsValue` | get-types.go:130-140 | a getter whose range contains the stored integer's range returns the stored value |
| `AccessorProperties.NarrowGetterThroughWide` | get-types.go:241-252 | for integers and absence, a narrower getter equals a wider getter followed by conversion |
| `AccessorProperties.IntExamples` | get-types.go:116-126 | `Int(q, 7)` is 7 when absent or text, 42 for the float 42.9, -1 for int8 -1; `Uint8` of int -1 is 255 |
| `AccessorProperties.LenExamples` | get-types.go:63-74 | -1 when absent, 5 for a five-element list, -1 for a struct or an integer, 2 for a two-byte string |
| `AccessorProperties.NavigateAgreesWithLen` | get-types.go:283-295 | a sub-navigator over a map or list has exactly as many elements as `Len` reports |
| `AccessorProperties.NavigateExamples` | get-types.go:283-295 | an integer gives nil, a map gives a navigator over that map, absence gives nil |
| `AccessorProperties.SafeInterfaceExamples` | get-types.go:79-88 | with default "" a text value is returned and an integer value gives "" |

## Left out

- Float values are finite reals: NaN, infinities and the rounding of a literal to float32 or float64 are not modelled.
- Float targets: `AnyToNumeric` into float64 or float32 and the getters `Float64` and `Float32` (lines 255-281) are floating-point arithmetic and are not modelled.
- Coercion.AnyToNumeric: for a float whose truncation lies outside the target's range Go leaves the result implementation-dependent; the model returns the wrapped truncation and no lemma relies on that value.
- The resolver `QualGet`, the qualifier interface `IQual`, the `ISource` capability and the constructors `FromMap`, `FromList` and `New` are not part of this model; the resolver is an arbitrary total function, and a sub-navigator is a tag recording the value it is built over. What a read through a sub-navigator returns is therefore not modelled.
- Sharing: a sub-navigator shares the backing map or slice with its parent; values here are immutable, so aliasing and mutation through either side are not captured.
- `reflect`: kinds and lengths are fields of the value; a channel's length is a given number, since its buffered count depends on concurrent senders and receivers.
- Complex numbers carry no arithmetic; only the exact-type rule applies to them.
- Accessors.SafeInterface: a nil default with a qualifier that resolves panics in the code; the corrected accessor requires a non-nil default in that case, since there is no type to compare (`SafeInterfaceAsWritten` models the panic).

## Findings

| source | as written | input that shows it | evidently intended | confidence | as-written member | corrected member |
|---|---|---|---|---|---|---|
| get-types.go:84 | `reflect.TypeOf(val)` is nil when the resolved value is the nil interface, and `AssignableTo(nil)` panics | a qualifier that resolves to a stored nil (for instance a map entry holding nil) with any non-nil default | return `defaultVal`, as the comment at lines 76-78 says for a value whose type is not assignable | high, not executed | `Accessors.SafeInterfaceAsWritten` | `Accessors.SafeInterface` |
