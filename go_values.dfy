/**
 Dynamically typed Go values as the typed-accessor layer of `delve` sees them:
 whatever the external resolver (`QualGet`) hands back through an `any`.

 Every value carries its dynamic type as a tag. Integers carry an unbounded
 `int` payload; a value is well formed (`Representable`) when that payload fits
 the tag's width. Only the parts of a value that the accessors inspect are
 kept: the value of a float, the length of a container, whether a type
 offers the source capability.
 */
module GoValues {

  datatype Option<T> = None | Some(value: T)

  /** A Go string is a sequence of bytes; `len` counts bytes. */
  newtype byte = b: int | 0 <= b < 256
  type GoString = seq<byte>

  /** The ten integer kinds of the `Numeric` constraint; `int` and `uint` are 64 bits wide. */
  datatype IntKind = Int | Int64 | Int32 | Int16 | Int8 | Uint | Uint64 | Uint32 | Uint16 | Uint8

  function Width(k: IntKind): nat
  {
    match k
    case Int | Int64 | Uint | Uint64 => 64
    case Int32 | Uint32 => 32
    case Int16 | Uint16 => 16
    case Int8 | Uint8 => 8
  }

  predicate Signed(k: IntKind)
  {
    k.Int? || k.Int64? || k.Int32? || k.Int16? || k.Int8?
  }

  /** 2 to the power Width(k). */
  function Modulus(k: IntKind): int
  {
    match Width(k)
    case 64 => 0x1_0000_0000_0000_0000
    case 32 => 0x1_0000_0000
    case 16 => 0x1_0000
    case _ => 0x100
  }

  /** 2 to the power Width(k) - 1. */
  function Half(k: IntKind): int
  {
    match Width(k)
    case 64 => 0x8000_0000_0000_0000
    case 32 => 0x8000_0000
    case 16 => 0x8000
    case _ => 0x80
  }

  function MinOf(k: IntKind): int
  {
    if Signed(k) then -Half(k) else 0
  }

  function MaxOf(k: IntKind): int
  {
    if Signed(k) then Half(k) - 1 else Modulus(k) - 1
  }

  predicate InRange(n: int, k: IntKind)
  {
    MinOf(k) <= n <= MaxOf(k)
  }

  /**
   The `reflect.Kind` of a value, reduced to what `Len` distinguishes:
   the five kinds that have a length, `InvalidKind` for the nil interface, and
   `UnsizedKind` for every other kind (booleans, numbers, structs, pointers, funcs).
   */
  datatype Kind = InvalidKind | ChanKind | MapKind | ArrayKind | SliceKind | StringKind | UnsizedKind

  /**
   A dynamic type that is none of the built-in ones below: a named type, a map
   or slice with other element types, an array, a channel, a struct, a pointer.
   `isSource` says whether its method set implements `ISource`.
   */
  datatype OtherType = OtherType(id: nat, kind: Kind, isSource: bool)

  /** The dynamic type of a non-nil value. */
  datatype GoType =
    | IntegerType(intKind: IntKind)
    | FloatType(wideFloat: bool)
    | ComplexType(wideComplex: bool)
    | StringType
    | BoolType
    | MapStringAnyType
    | SliceAnyType
    | Other(other: OtherType)

  /**
   A value held in an `any`.
   - Integer: one of the ten integer kinds, with its mathematical value.
   - Float: float64 (wide) or float32, with its (finite) value as a real.
   - Complex: complex128 (wide) or complex64, an opaque bit pattern (0 is the zero value).
   - Dict: a `map[string]any`; List: a `[]any`.
   - Opaque: a value of some other type, with its length when its kind has one
     (for a channel, the number of buffered elements at the time of the call).
   */
  datatype Value =
    | Nil
    | Integer(kind: IntKind, n: int)
    | Float(wide: bool, x: real)
    | Complex(wideC: bool, bits: nat)
    | Str(s: GoString)
    | Boolean(b: bool)
    | Dict(entries: map<GoString, Value>)
    | List(items: seq<Value>)
    | Opaque(ty: OtherType, len: nat)

  /** An integer value whose payload fits its kind, as every Go integer does. */
  predicate Representable(v: Value)
  {
    v.Integer? ==> InRange(v.n, v.kind)
  }

  /** The twelve recognised numeric kinds: the ten integer kinds and two float kinds. */
  predicate IsNumeric(v: Value)
  {
    v.Integer? || v.Float?
  }

  function TypeOf(v: Value): GoType
    requires !v.Nil?
  {
    match v
    case Integer(k, _) => IntegerType(k)
    case Float(w, _) => FloatType(w)
    case Complex(w, _) => ComplexType(w)
    case Str(_) => StringType
    case Boolean(_) => BoolType
    case Dict(_) => MapStringAnyType
    case List(_) => SliceAnyType
    case Opaque(t, _) => Other(t)
  }

  function KindOf(v: Value): Kind
  {
    match v
    case Nil => InvalidKind
    case Str(_) => StringKind
    case Dict(_) => MapKind
    case List(_) => SliceKind
    case Opaque(t, _) => t.kind
    case _ => UnsizedKind
  }

  /** The kinds for which `reflect.Value.Len` is defined. */
  predicate HasLength(k: Kind)
  {
    k.ChanKind? || k.MapKind? || k.ArrayKind? || k.SliceKind? || k.StringKind?
  }

  /** What `reflect.Value.Len` reports for a value whose kind has a length. */
  function Count(v: Value): nat
  {
    match v
    case Str(s) => |s|
    case Dict(m) => |m|
    case List(xs) => |xs|
    case Opaque(_, n) => n
    case _ => 0
  }
}
