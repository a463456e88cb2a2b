/** Type descriptors: the packed codes of include/ffi_platypus.h and the several places that
    switch on them.  Pointers are 8 bytes wide (FFI_PL_SIZE_PTR is FFI_PL_SIZE_64), and the
    optional long double and complex types are taken to be compiled in. */
module TypeCodes {

  type Code = bv16

  const SIZE_MASK: Code := 0x0007
  const BASE_SINT: Code := 0x0010
  const BASE_UINT: Code := 0x0020
  const BASE_FLOAT: Code := 0x0040
  const BASE_COMPLEX: Code := 0x0080
  const BASE_OPAQUE: Code := 0x0100
  const BASE_STRING: Code := 0x0200
  const BASE_CLOSURE: Code := 0x0400
  const BASE_RECORD: Code := 0x0800
  const BASE_MASK: Code := 0x0ff8

  const SHAPE_SCALAR: Code := 0x0000
  const SHAPE_POINTER: Code := 0x1000
  const SHAPE_ARRAY: Code := 0x2000
  const SHAPE_CUSTOM: Code := 0x3000
  const SHAPE_OBJECT: Code := 0x4000
  const SHAPE_MASK: Code := 0xf000

  const VOID: Code := 0x0008
  const SINT8: Code := 0x0011
  const SINT16: Code := 0x0012
  const SINT32: Code := 0x0013
  const SINT64: Code := 0x0014
  const UINT8: Code := 0x0021
  const UINT16: Code := 0x0022
  const UINT32: Code := 0x0023
  const UINT64: Code := 0x0024
  const FLOAT: Code := 0x0043
  const DOUBLE: Code := 0x0044
  const LONG_DOUBLE: Code := 0x0045
  const COMPLEX_FLOAT: Code := 0x0084
  const COMPLEX_DOUBLE: Code := 0x0085
  const OPAQUE: Code := 0x0104
  const STRING: Code := 0x0304
  const CLOSURE: Code := 0x0504
  const RECORD: Code := 0x0904
  const RECORD_VALUE: Code := 0x0800

  /** ffi_pl_type with the fields of its union laid side by side.  `skip` is
      custom_perl.argument_count, the number of native slots beyond the first; `convert`, `post`
      and `back` say whether the three custom handlers are present. */
  datatype Type = Type(code: Code, elementCount: nat, recordSize: nat, hasMeta: bool,
                       skip: nat, convert: bool, post: bool, back: bool)

  function Shape(code: Code): Code {
    code & SHAPE_MASK
  }

  function Base(code: Code): Code {
    code & BASE_MASK
  }

  /** The code without its shape bits. */
  function Stem(code: Code): Code {
    code & !SHAPE_MASK
  }

  predicate IsCustom(code: Code) {
    Shape(code) == SHAPE_CUSTOM
  }

  /** The code left when the dispatch strips the custom shape. */
  function Basis(code: Code): Code {
    code ^ SHAPE_CUSTOM
  }

  predicate IsInteger(code: Code) {
    code == SINT8 || code == SINT16 || code == SINT32 || code == SINT64 ||
    code == UINT8 || code == UINT16 || code == UINT32 || code == UINT64
  }

  /** The codes of TypeParser's basic_type table, void left out. */
  predicate IsUnit(code: Code) {
    IsInteger(code) || code == FLOAT || code == DOUBLE || code == LONG_DOUBLE ||
    code == COMPLEX_FLOAT || code == COMPLEX_DOUBLE || code == OPAQUE || code == STRING
  }

  predicate IsCustomizable(code: Code) {
    Shape(code) == SHAPE_SCALAR &&
    (Base(code) == BASE_SINT || Base(code) == BASE_UINT || Base(code) == BASE_FLOAT ||
     Base(code) == BASE_OPAQUE || Base(code) == BASE_RECORD || Base(code) == (BASE_RECORD | BASE_OPAQUE))
  }

  predicate IsObjectOk(code: Code) {
    Shape(code) == SHAPE_SCALAR &&
    (Base(code) == BASE_SINT || Base(code) == BASE_UINT || Base(code) == BASE_OPAQUE)
  }

  /** Codes of the scalar descriptors the parser makes. */
  predicate IsScalar(code: Code) {
    IsUnit(code) || code == CLOSURE || code == RECORD || code == RECORD_VALUE
  }

  /** Every code an argument descriptor can carry: what the create_type_* calls make for the
      types the parser accepts, void excluded as Function::new does. */
  predicate IsArgument(code: Code) {
    || IsScalar(code)
    || ((Shape(code) == SHAPE_POINTER || Shape(code) == SHAPE_ARRAY) && IsUnit(Stem(code)))
    || (Shape(code) == SHAPE_OBJECT && IsUnit(Stem(code)) && IsObjectOk(Stem(code)))
    || (IsCustom(code) && IsScalar(Stem(code)) && IsCustomizable(Stem(code)))
  }

  /** 1 << ((code & SIZE_MASK) - 1), with the explicit zero case of xs/meta.c. */
  function UnitBytes(code: Code): nat {
    var size := code & SIZE_MASK;
    if size == 0 then 0
    else if size == 1 then 1
    else if size == 2 then 2
    else if size == 3 then 4
    else if size == 4 then 8
    else if size == 5 then 16
    else if size == 6 then 32
    else 64
  }

  function UnitSize(t: Type): nat {
    if Base(t.code) == BASE_RECORD then t.recordSize else UnitBytes(t.code)
  }

  /** ffi_pl_sizeof. */
  function SizeOf(t: Type): nat {
    if t.code == RECORD || t.code == RECORD_VALUE || t.code == RECORD | SHAPE_CUSTOM ||
       t.code == RECORD_VALUE | SHAPE_CUSTOM then t.recordSize
    else if Shape(t.code) == SHAPE_SCALAR || Shape(t.code) == SHAPE_CUSTOM then UnitSize(t)
    else if Shape(t.code) == SHAPE_POINTER then 8
    else if Shape(t.code) == SHAPE_ARRAY then UnitSize(t) * t.elementCount
    else 0
  }

  datatype Option<+T> = None | Some(value: T)

  datatype FfiType = FfiVoid | FfiInt(bytes: nat, signed: bool) | FfiFloat(bytes: nat) | FfiLongDouble
                   | FfiComplex(bytes: nat) | FfiPointer | FfiStruct(bytes: nat)

  /** Bytes libffi reads for a value of type `f`; `longDouble` is sizeof(long double). */
  function FfiWidth(f: FfiType, longDouble: nat): nat {
    match f
    case FfiVoid => 0
    case FfiInt(n, _) => n
    case FfiFloat(n) => n
    case FfiLongDouble => longDouble
    case FfiComplex(n) => n
    case FfiPointer => 8
    case FfiStruct(n) => n
  }

  function IntegerFfi(code: Code): FfiType
    requires IsInteger(code)
  {
    if code == SINT8 then FfiInt(1, true)
    else if code == SINT16 then FfiInt(2, true)
    else if code == SINT32 then FfiInt(4, true)
    else if code == SINT64 then FfiInt(8, true)
    else if code == UINT8 then FfiInt(1, false)
    else if code == UINT16 then FfiInt(2, false)
    else if code == UINT32 then FfiInt(4, false)
    else FfiInt(8, false)
  }

  /** ffi_pl_type_to_libffi_type; None is the NULL result. */
  function ToLibffi(t: Type): Option<FfiType> {
    var stripped := if IsCustom(t.code) || Shape(t.code) == SHAPE_OBJECT then Stem(t.code) else t.code;
    if stripped == VOID then Some(FfiVoid)
    else if IsInteger(stripped) then Some(IntegerFfi(stripped))
    else if stripped == FLOAT then Some(FfiFloat(4))
    else if stripped == DOUBLE then Some(FfiFloat(8))
    else if stripped == LONG_DOUBLE then Some(FfiLongDouble)
    else if stripped == COMPLEX_FLOAT then Some(FfiComplex(8))
    else if stripped == COMPLEX_DOUBLE then Some(FfiComplex(16))
    else if stripped == OPAQUE || stripped == STRING || stripped == CLOSURE || stripped == RECORD then Some(FfiPointer)
    else if stripped == RECORD_VALUE then if t.hasMeta then Some(FfiStruct(t.recordSize)) else None
    else if Shape(stripped) == SHAPE_POINTER || Shape(stripped) == SHAPE_ARRAY then Some(FfiPointer)
    else None
  }

  /** The arm of the argument-in switch a code selects, after a custom shape was stripped. */
  datatype InKind = InSlot | InBoxed | InInstance | InClosure | InIndirect | InObject | InObjectBad | InUnsupported

  function InKindOf(code: Code): InKind {
    if IsInteger(code) || code == FLOAT || code == DOUBLE || code == OPAQUE || code == STRING ||
        code == RECORD then InSlot
    else if code == LONG_DOUBLE || code == COMPLEX_FLOAT || code == COMPLEX_DOUBLE then InBoxed
    else if code == RECORD_VALUE then InInstance
    else if code == CLOSURE then InClosure
    else if Shape(code) == SHAPE_POINTER || Shape(code) == SHAPE_ARRAY then InIndirect
    else if Shape(code) == SHAPE_OBJECT then
      if IsInteger(code ^ SHAPE_OBJECT) || code == OPAQUE | SHAPE_OBJECT then InObject else InObjectBad
    else InUnsupported
  }

  /** The arm of the argument-out switch; here the code is not stripped. */
  datatype OutKind = OutClosure | OutIndirect | OutCustom | OutNothing

  function OutKindOf(code: Code): OutKind {
    if code == CLOSURE then OutClosure
    else if Shape(code) == SHAPE_POINTER || Shape(code) == SHAPE_ARRAY then OutIndirect
    else if IsCustom(code) then OutCustom
    else OutNothing
  }

  /** Stripping recovers the basis exactly for scalar codes, the shape is_customizable demands. */
  lemma StripRecoversBasis(code: Code)
    ensures IsCustom(SHAPE_CUSTOM | code) && Basis(SHAPE_CUSTOM | code) == code <==> Shape(code) == SHAPE_SCALAR
  {
  }

  /** The xor of the dispatch and the mask of ffi_pl_type_to_libffi_type agree on custom types,
      so a custom type and its basis are declared to libffi as the same type and have one size. */
  lemma CustomAgreesWithBasis(t: Type, basis: Code)
    requires IsScalar(basis) && IsCustomizable(basis) && t.code == SHAPE_CUSTOM | basis
    ensures IsCustom(t.code) && Basis(t.code) == basis
    ensures ToLibffi(t) == ToLibffi(t.(code := basis))
    ensures SizeOf(t) == SizeOf(t.(code := basis))
    ensures InKindOf(basis) == InSlot || InKindOf(basis) == InBoxed || InKindOf(basis) == InInstance
  {
  }

  lemma {:induction false} CustomBits(code: Code)
    requires IsCustom(code)
    ensures Basis(code) == Stem(code) && code == SHAPE_CUSTOM | Stem(code) && Shape(Stem(code)) == SHAPE_SCALAR
    ensures !IsScalar(code)
  {
  }
}
