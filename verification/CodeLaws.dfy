/** What the bits of a type code say, against the switches that list codes one by one: the libffi table
    (xs/names.c), ffi_pl_sizeof (xs/meta.c), and the arms of the call (include/ffi_platypus_call.h). */
module CodeLaws {
  import opened TypeCodes
  import opened IntegerTypes
  import opened Words

  /** The size field, counted in bytes. */
  function SizeField(code: Code): nat {
    var n := (code & SIZE_MASK) as nat;
    if n == 0 then 0 else Power(n - 1)
  }

  function Power(n: nat): nat {
    if n == 0 then 1 else 2 * Power(n - 1)
  }

  lemma {:induction false} UnitBytesIsField(code: Code)
    ensures UnitBytes(code) == SizeField(code)
  {
    var n := (code & SIZE_MASK) as nat;
    assert Power(1) == 2 && Power(2) == 4 && Power(3) == 8 && Power(4) == 16 && Power(5) == 32 && Power(6) == 64;
  }

  /** The integer types are the scalars of the two integer bases; one is signed exactly if its base is,
      and as wide as its size field says. */
  lemma {:induction false} IntegerBits(code: Code)
    requires IsUnit(code)
    ensures IsInteger(code) <==> Base(code) == BASE_SINT || Base(code) == BASE_UINT
    ensures IsInteger(code) ==>
              && (IntegerOf(code).signed <==> Base(code) == BASE_SINT)
              && IntegerOf(code).bytes == SizeField(code) && 0 < SizeField(code) <= 8
  {
    UnitBytesIsField(code);
  }

  /** n is the C type of the width and signedness the code has in its bits, whatever its shape. */
  predicate HasBits(code: Code, n: IntType) {
    n.bytes == SizeField(code) && (n.signed <==> Base(code) == BASE_SINT)
  }

  lemma {:induction false} BitsAreType(code: Code, n: IntType)
    requires IsInteger(code) && HasBits(code, n)
    ensures n == IntegerOf(code) && 0 < n.bytes <= 8 && IntegerFfi(code) == FfiInt(n.bytes, n.signed)
  {
    IntegerBits(code);
  }

  /** The scalar codes are just these combinations of base and size, without a shape. */
  lemma {:induction false} ScalarCodes(code: Code)
    ensures var base, size, plain := Base(code), code & SIZE_MASK, Shape(code) == SHAPE_SCALAR;
            && (IsUnit(code) <==>
                  plain &&
                  (((base == BASE_SINT || base == BASE_UINT) && 1 <= size <= 4) ||
                   (base == BASE_FLOAT && 3 <= size <= 5) ||
                   (base == BASE_COMPLEX && 4 <= size <= 5) ||
                   ((base == BASE_OPAQUE || base == BASE_OPAQUE | BASE_STRING) && size == 4)))
            && (IsScalar(code) <==>
                  IsUnit(code) ||
                  (plain && (((base == BASE_OPAQUE | BASE_CLOSURE || base == BASE_OPAQUE | BASE_RECORD) && size == 4) ||
                             (base == BASE_RECORD && size == 0))))
  {
  }

  /** Scalars that can carry handlers, and those that can be objects. */
  lemma {:induction false} ScalarBits(code: Code)
    requires IsScalar(code)
    ensures IsCustomizable(code) <==>
            IsInteger(code) || code == FLOAT || code == DOUBLE || code == LONG_DOUBLE || code == OPAQUE ||
            code == RECORD || code == RECORD_VALUE
    ensures IsUnit(code) ==> (IsObjectOk(code) <==> IsInteger(code) || code == OPAQUE)
    ensures Shape(code) == SHAPE_SCALAR && Stem(code) == code && !IsCustom(code)
  {
  }

  /** What a stem without shape is declared as, by its base and size. */
  function StemFfi(stem: Code, t: Type): Option<FfiType> {
    var base := Base(stem);
    if base == BASE_SINT || base == BASE_UINT then Some(FfiInt(SizeField(stem), base == BASE_SINT))
    else if base == BASE_FLOAT then Some(if SizeField(stem) == 16 then FfiLongDouble else FfiFloat(SizeField(stem)))
    else if base == BASE_COMPLEX then Some(FfiComplex(SizeField(stem)))
    else if base & BASE_OPAQUE != 0 then Some(FfiPointer)
    else if base == BASE_RECORD && t.hasMeta then Some(FfiStruct(t.recordSize))
    else None
  }

  lemma {:induction false} ScalarDeclared(t: Type)
    requires IsScalar(t.code)
    ensures ToLibffi(t) == StemFfi(t.code, t)
  {
    UnitBytesIsField(t.code);
  }

  lemma {:induction false} ShapedDeclared(t: Type)
    requires Shape(t.code) == SHAPE_POINTER || Shape(t.code) == SHAPE_ARRAY
    ensures ToLibffi(t) == Some(FfiPointer)
  {
  }

  lemma {:induction false} ObjectDeclared(t: Type)
    requires Shape(t.code) == SHAPE_OBJECT && IsUnit(Stem(t.code))
    ensures ToLibffi(t) == ToLibffi(t.(code := Stem(t.code)))
  {
    ScalarBits(Stem(t.code));
  }

  /** Every argument type is declared to libffi as its bits say: pointers and arrays as pointers, any other
      shape as the stem it was put on. */
  lemma {:induction false} DeclaredAsBits(t: Type)
    requires IsArgument(t.code)
    ensures ToLibffi(t) == if Shape(t.code) == SHAPE_POINTER || Shape(t.code) == SHAPE_ARRAY then Some(FfiPointer)
                           else StemFfi(Stem(t.code), t)
  {
    if IsCustom(t.code) {
      CustomBits(t.code);
      CustomAgreesWithBasis(t, Stem(t.code));
      ScalarDeclared(t.(code := Stem(t.code)));
    } else if Shape(t.code) == SHAPE_POINTER || Shape(t.code) == SHAPE_ARRAY {
      ShapedDeclared(t);
    } else if Shape(t.code) == SHAPE_OBJECT {
      ObjectDeclared(t);
      ScalarDeclared(t.(code := Stem(t.code)));
    } else {
      ScalarBits(t.code);
      ScalarDeclared(t);
    }
  }

  /** The size reported for a type is what libffi reads for it, with long doubles of 16 bytes; but a record
      reports its own size even where a pointer to it is passed, an array all its elements, and an
      object none. */
  lemma {:induction false} SizeIsWidth(t: Type)
    requires IsArgument(t.code) && ToLibffi(t).Some?
    ensures SizeOf(t) ==
            if Shape(t.code) == SHAPE_ARRAY then t.elementCount * SizeField(t.code)
            else if Shape(t.code) == SHAPE_OBJECT then 0
            else if Stem(t.code) == RECORD && Shape(t.code) != SHAPE_POINTER then t.recordSize
            else FfiWidth(ToLibffi(t).value, 16)
  {
    UnitBytesIsField(t.code);
    UnitBytesIsField(Stem(t.code));
    DeclaredAsBits(t);
    if IsCustom(t.code) {
      CustomBits(t.code);
      CustomAgreesWithBasis(t, Stem(t.code));
      ScalarSize(t.(code := Stem(t.code)));
    } else if IsScalar(t.code) {
      ScalarBits(t.code);
      ScalarSize(t);
    } else {
      ShapedSize(t);
    }
  }

  lemma {:induction false} ScalarSize(t: Type)
    requires IsScalar(t.code) && ToLibffi(t).Some?
    ensures SizeOf(t) == if t.code == RECORD then t.recordSize else FfiWidth(ToLibffi(t).value, 16)
  {
  }

  lemma {:induction false} ShapedSize(t: Type)
    requires IsArgument(t.code) && !IsScalar(t.code) && !IsCustom(t.code)
    ensures SizeOf(t) ==
            if Shape(t.code) == SHAPE_ARRAY then t.elementCount * UnitBytes(t.code)
            else if Shape(t.code) == SHAPE_OBJECT then 0 else 8
  {
  }

  /** The argument switches: in and out, pointers and arrays share an arm, and so do closures; the class of the
      value is checked for records by value and objects only; and no type falls through. */
  lemma {:induction false} ArmBits(code: Code)
    requires IsArgument(code)
    ensures InKindOf(code) == InIndirect <==> Shape(code) == SHAPE_POINTER || Shape(code) == SHAPE_ARRAY
    ensures OutKindOf(code) == OutIndirect <==> InKindOf(code) == InIndirect
    ensures OutKindOf(code) == OutClosure <==> InKindOf(code) == InClosure
    ensures OutKindOf(code) == OutCustom <==> Shape(code) == SHAPE_CUSTOM
    ensures InKindOf(code) == InClosure <==> code == CLOSURE
    ensures InKindOf(code) == InObject <==> Shape(code) == SHAPE_OBJECT
    ensures !IsCustom(code) ==> InKindOf(code) != InUnsupported && InKindOf(code) != InObjectBad
    ensures !IsCustom(code) ==> (InKindOf(code) == InInstance <==> code == RECORD_VALUE)
    ensures IsCustom(code) ==> IsScalar(Basis(code)) && !IsCustom(Basis(code)) && Basis(code) == Stem(code)
  {
    if IsCustom(code) {
      CustomBits(code);
      ScalarBits(Stem(code));
    } else if IsScalar(code) {
      ScalarBits(code);
    } else {
      ShapedArms(code);
    }
  }

  lemma {:induction false} ShapedArms(code: Code)
    requires IsArgument(code) && !IsScalar(code) && !IsCustom(code)
    ensures Shape(code) == SHAPE_POINTER || Shape(code) == SHAPE_ARRAY || Shape(code) == SHAPE_OBJECT
    ensures InKindOf(code) == if Shape(code) == SHAPE_OBJECT then InObject else InIndirect
    ensures OutKindOf(code) == if Shape(code) == SHAPE_OBJECT then OutNothing else OutIndirect
    ensures code != CLOSURE && code != RECORD_VALUE
  {
  }
}
