/** The C integer types behind type codes and addresses. */
module IntegerTypes {
  import opened TypeCodes
  import opened Words

  /** Of an integer type code: the width and signedness libffi is told. */
  function IntegerOf(code: Code): IntType
    requires IsInteger(code)
  {
    IntType(IntegerFfi(code).bytes, IntegerFfi(code).signed)
  }

  /** A pointer as the integer PTR2IV gives. */
  const ADDRESS := IV
}
