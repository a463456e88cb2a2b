/** Closure types and callbacks: what create_type_closure accepts (xs/TypeParser.xs) and what
    ffi_pl_closure_call does with it (xs/closure.c). */
module ClosureTypes {
  import opened TypeCodes
  import opened Words
  import opened IntegerTypes
  import opened CodeLaws
  import opened Views

  /** Return type check of create_type_closure; None is a croak.  `canReturn` is the record meta's
      can_return_from_closure. */
  function ReturnFfi(t: Type, canReturn: bool): Option<FfiType> {
    if t.code == VOID then Some(FfiVoid)
    else if IsInteger(t.code) then Some(IntegerFfi(t.code))
    else if t.code == FLOAT then Some(FfiFloat(4))
    else if t.code == DOUBLE then Some(FfiFloat(8))
    else if t.code == OPAQUE then Some(FfiPointer)
    else if t.code == RECORD_VALUE && t.hasMeta && canReturn then Some(FfiStruct(t.recordSize))
    else None
  }

  /** Argument type check of create_type_closure. */
  function ArgumentFfi(t: Type): Option<FfiType> {
    if t.code == VOID then Some(FfiVoid)
    else if IsInteger(t.code) then Some(IntegerFfi(t.code))
    else if t.code == FLOAT then Some(FfiFloat(4))
    else if t.code == DOUBLE then Some(FfiFloat(8))
    else if t.code == OPAQUE || t.code == STRING || t.code == RECORD then Some(FfiPointer)
    else if t.code == RECORD_VALUE && t.hasMeta then Some(FfiStruct(t.recordSize))
    else None
  }

  /** The arm of the argument switch of ffi_pl_closure_call; ArgBad is its "bad type" warning. */
  datatype ArgArm = ArgNothing | ArgInt | ArgFloat | ArgOpaque | ArgString | ArgRecord | ArgRecordValue | ArgBad

  function ArgArmOf(code: Code): ArgArm {
    if code == VOID then ArgNothing
    else if IsInteger(code) then ArgInt
    else if code == FLOAT || code == DOUBLE then ArgFloat
    else if code == OPAQUE then ArgOpaque
    else if code == STRING then ArgString
    else if code == RECORD then ArgRecord
    else if code == RECORD_VALUE then ArgRecordValue
    else ArgBad
  }

  datatype ReturnArm = ReturnNothing | ReturnInt | ReturnFloat | ReturnOpaque | ReturnRecord | ReturnBad

  function ReturnArmOf(code: Code): ReturnArm {
    if code == VOID then ReturnNothing
    else if IsInteger(code) then ReturnInt
    else if code == FLOAT || code == DOUBLE then ReturnFloat
    else if code == OPAQUE then ReturnOpaque
    else if code == RECORD_VALUE then ReturnRecord
    else ReturnBad
  }

  /** Completeness: the arms cover exactly the accepted types (a record by value needs its meta),
      and an accepted type is declared to libffi just as it is for ordinary calls. */
  lemma {:induction false} AcceptedIsMarshalled(t: Type, canReturn: bool)
    ensures ArgumentFfi(t).Some? <==> ArgArmOf(t.code) != ArgBad && (t.code == RECORD_VALUE ==> t.hasMeta)
    ensures ReturnFfi(t, canReturn).Some? <==>
            ReturnArmOf(t.code) != ReturnBad && (t.code == RECORD_VALUE ==> t.hasMeta && canReturn)
    ensures ArgumentFfi(t).Some? ==> ToLibffi(t) == ArgumentFfi(t)
    ensures ReturnFfi(t, canReturn).Some? ==> ToLibffi(t) == ReturnFfi(t, canReturn)
    ensures t.code == CLOSURE ==> ArgumentFfi(t).None? && ReturnFfi(t, canReturn).None?
  {
  }

  /** By their bits: of the argument types the parser makes, the scalars with the size and base of an integer, a
      float or double or a pointer, but closures; strings and record pointers are arguments only. */
  lemma {:induction false} AcceptedBits(t: Type, canReturn: bool)
    requires t.code == VOID || IsArgument(t.code)
    ensures var base := Base(t.code);
            var native := Shape(t.code) == SHAPE_SCALAR &&
                (t.code == VOID || base == BASE_SINT || base == BASE_UINT || base == BASE_OPAQUE ||
                 (base == BASE_FLOAT && SizeField(t.code) <= 8));
            && (ReturnFfi(t, canReturn).Some? <==> native || (t.code == RECORD_VALUE && t.hasMeta && canReturn))
            && (ArgumentFfi(t).Some? <==>
                native || t.code == STRING || t.code == RECORD || (t.code == RECORD_VALUE && t.hasMeta))
  {
    UnitBytesIsField(t.code);
    if IsScalar(t.code) {
      ScalarBits(t.code);
    }
  }

  /** What create_type_closure stores in a descriptor.  `noArgs` and `discard` are the flags
      G_NOARGS and G_DISCARD | G_VOID of the later call_sv. */
  datatype Prepared = Prepared(ret: Type, args: seq<Type>, ffiRet: FfiType, ffiArgs: seq<FfiType>, noArgs: bool,
      discard: bool)

  /** create_type_closure; `prep` is whether ffi_prep_cif succeeds.  None is a croak. */
  method CreateClosureType(ret: Type, canReturn: bool, args: seq<Type>, prep: bool) returns (r: Option<Prepared>)
    ensures r.Some? <==>
            ReturnFfi(ret, canReturn).Some? && (forall i :: 0 <= i < |args| ==> ArgumentFfi(args[i]).Some?) && prep
    ensures r.Some? ==>
              && r.value.ret == ret && r.value.args == args
              && r.value.ffiRet == ToLibffi(ret).value && |r.value.ffiArgs| == |args|
              && (forall i :: 0 <= i < |args| ==> ToLibffi(args[i]) == Some(r.value.ffiArgs[i]))
              && (r.value.noArgs <==> args == []) && (r.value.discard <==> ReturnArmOf(ret.code) == ReturnNothing)
  {
    AcceptedIsMarshalled(ret, canReturn);
    var ffiRet := ReturnFfi(ret, canReturn);
    if ffiRet == None {
      return None;
    }
    var ffiArgs := [];
    var i := 0;
    while i < |args|
      invariant 0 <= i <= |args| && |ffiArgs| == i
      invariant forall j :: 0 <= j < i ==> ArgumentFfi(args[j]).Some? && ToLibffi(args[j]) == Some(ffiArgs[j])
    {
      AcceptedIsMarshalled(args[i], canReturn);
      var ffi := ArgumentFfi(args[i]);
      if ffi == None {
        return None;
      }
      ffiArgs := ffiArgs + [ffi.value];
      i := i + 1;
    }
    if !prep {
      return None;
    }
    r := Some(Prepared(ret, args, ffiRet.value, ffiArgs, |args| == 0, ret.code == VOID));
  }

  // ---- Descriptors that refer to other descriptors ----

  /** A descriptor; a closure's also points at those of its arguments and its return value. */
  datatype Tree = Leaf(t: Type) | Node(ret: Tree, args: seq<Tree>)

  function TypeOf(tree: Tree): Type {
    match tree
    case Leaf(t) => t
    case Node(_, _) => Type(CLOSURE, 0, 0, false, 0, false, false, false)
  }

  /** Trees create_type_closure can make out of trees that exist. */
  predicate Creatable(tree: Tree) {
    tree.Node? ==>
      && (exists canReturn :: ReturnFfi(TypeOf(tree.ret), canReturn).Some?) && Creatable(tree.ret)
      && (forall i :: 0 <= i < |tree.args| ==> ArgumentFfi(TypeOf(tree.args[i])).Some? && Creatable(tree.args[i]))
  }

  /** Nesting depth of ffi_pl_get_type_meta's recursion on a descriptor. */
  function MetaDepth(tree: Tree): nat
    decreases tree, 0
  {
    match tree
    case Leaf(_) => 1
    case Node(ret, args) => 1 + Max(MetaDepth(ret), DeepestOf(args, |args|))
  }

  function DeepestOf(args: seq<Tree>, n: nat): nat
    requires n <= |args|
    decreases args, 1, n
  {
    if n == 0 then 0
    else
      assert args decreases to args[n - 1];
      Max(DeepestOf(args, n - 1), MetaDepth(args[n - 1]))
  }

  function Max(a: nat, b: nat): nat {
    if a < b then b else a
  }

  /** Closures cannot nest, so the recursion is at most two calls deep. */
  lemma {:induction false} MetaRecursionIsShallow(tree: Tree)
    requires Creatable(tree)
    ensures MetaDepth(tree) <= 2
    ensures tree.Node? ==> tree.ret.Leaf? && forall i :: 0 <= i < |tree.args| ==> tree.args[i].Leaf?
  {
    if tree.Node? {
      assert tree.ret.Leaf?;
      LeavesOnly(tree.args, |tree.args|);
    }
  }

  lemma {:induction false} LeavesOnly(args: seq<Tree>, n: nat)
    requires n <= |args| && forall i :: 0 <= i < |args| ==> args[i].Leaf?
    ensures DeepestOf(args, n) <= 1
  {
    if n > 0 {
      LeavesOnly(args, n - 1);
    }
  }

  // ---- The callback ----

  /** A value pushed for the Perl code: an integer, the bytes of a float, an address (None is NULL,
      pushed as undef), or a record's bytes. */
  datatype Pushed = PushedInt(value: int) | PushedFloat(bytes: seq<Byte>) | PushedAddress(address: Option<int>)
                  | PushedRecord(bytes: seq<Byte>)

  /** Bytes the foreign code passes for an argument. */
  function ArgumentBytes(t: Type): nat {
    if ArgumentFfi(t).Some? then FfiWidth(ArgumentFfi(t).value, 0) else 0
  }

  /** PTR2IV of a pointer that is not NULL. */
  function AddressOf(order: Order, bytes: seq<Byte>): Option<int>
    requires |bytes| == 8
  {
    var address := LoadInt(order, IV, bytes);
    if address == 0 then None else Some(address)
  }

  /** What one argument puts on the Perl stack; nothing for void. */
  function PushedFor(order: Order, t: Type, bytes: seq<Byte>): seq<Pushed>
    requires ArgumentFfi(t).Some? && |bytes| == ArgumentBytes(t)
  {
    match ArgArmOf(t.code)
    case ArgNothing => []
    case ArgInt => [PushedInt(LoadInt(order, IntegerOf(t.code), bytes))]
    case ArgFloat => [PushedFloat(bytes)]
    case ArgRecordValue => [PushedRecord(bytes)]
    case ArgOpaque | ArgString | ArgRecord => [PushedAddress(AddressOf(order, bytes))]
    case ArgBad => []
  }

  /** An integer of the C type whose width and signedness the argument's code has in its bits is seen by the
      Perl code exactly. */
  lemma {:induction false} PushedInteger(order: Order, t: Type, n: IntType, x: int)
    requires IsInteger(t.code) && HasBits(t.code, n) && InRange(n, x)
    ensures ArgumentFfi(t) == Some(FfiInt(n.bytes, n.signed)) && ArgumentBytes(t) == n.bytes
    ensures PushedFor(order, t, StoreInt(order, n, x)) == [PushedInt(x)]
  {
    BitsAreType(t.code, n);
    IntegerWidths(t);
    IntegerPushed(order, t, StoreInt(order, n, x));
    StoreLoad(order, n, x);
  }

  lemma {:induction false} IntegerPushed(order: Order, t: Type, bytes: seq<Byte>)
    requires IsInteger(t.code) && ArgumentFfi(t).Some? && |bytes| == ArgumentBytes(t) == IntegerOf(t.code).bytes
    ensures PushedFor(order, t, bytes) == [PushedInt(LoadInt(order, IntegerOf(t.code), bytes))]
  {
    assert ArgArmOf(t.code) == ArgInt;
  }

  lemma {:induction false} IntegerWidths(t: Type)
    requires IsInteger(t.code)
    ensures ArgumentFfi(t) == Some(IntegerFfi(t.code)) && ArgumentBytes(t) == IntegerOf(t.code).bytes > 0
  {
  }

  /** A pointer is seen as its address, a signed integer, and NULL as undef. */
  lemma {:induction false} PushedPointer(order: Order, t: Type, x: int)
    requires (t.code == OPAQUE || t.code == STRING || t.code == RECORD) && InRange(IV, x)
    ensures ArgumentFfi(t).Some? && ArgumentBytes(t) == 8
    ensures PushedFor(order, t, StoreInt(order, IV, x)) == [PushedAddress(if x == 0 then None else Some(x))]
  {
    AddressOfStored(order, x);
    AddressPushed(order, t, StoreInt(order, IV, x));
  }

  lemma {:induction false} AddressOfStored(order: Order, x: int)
    requires InRange(IV, x)
    ensures AddressOf(order, StoreInt(order, IV, x)) == if x == 0 then None else Some(x)
  {
    StoreLoad(order, IV, x);
  }

  lemma {:induction false} AddressPushed(order: Order, t: Type, bytes: seq<Byte>)
    requires (t.code == OPAQUE || t.code == STRING || t.code == RECORD) && |bytes| == 8
    ensures ArgumentFfi(t) == Some(FfiPointer) && ArgumentBytes(t) == 8
    ensures PushedFor(order, t, bytes) == [PushedAddress(AddressOf(order, bytes))]
  {
    PointerDeclared(t);
    PointerArms(t.code);
  }

  lemma {:induction false} PointerDeclared(t: Type)
    requires t.code == OPAQUE || t.code == STRING || t.code == RECORD
    ensures ArgumentFfi(t) == Some(FfiPointer) && ArgumentBytes(t) == 8
  {
  }

  lemma {:induction false} PointerArms(code: Code)
    requires code == OPAQUE || code == STRING || code == RECORD
    ensures ArgArmOf(code) == if code == OPAQUE then ArgOpaque else if code == STRING then ArgString else ArgRecord
  {
  }

  /** The bytes of a float, a double or a record arrive as they are; only void pushes nothing. */
  lemma {:induction false} PushedBytes(order: Order, t: Type, bytes: seq<Byte>)
    requires ArgumentFfi(t).Some? && |bytes| == ArgumentBytes(t)
    ensures t.code == FLOAT || t.code == DOUBLE ==> PushedFor(order, t, bytes) == [PushedFloat(bytes)]
    ensures t.code == RECORD_VALUE ==> |bytes| == t.recordSize && PushedFor(order, t, bytes) == [PushedRecord(bytes)]
    ensures t.code == VOID <==> PushedFor(order, t, bytes) == []
  {
  }

  ghost predicate Passed(types: seq<Type>, args: seq<seq<Byte>>) {
    |types| == |args| &&
    forall i :: 0 <= i < |types| ==> ArgumentFfi(types[i]).Some? && |args[i]| == ArgumentBytes(types[i])
  }

  function NonVoid(types: seq<Type>): seq<nat> {
    if types == [] then []
    else NonVoid(types[..|types| - 1]) + (if types[|types| - 1].code == VOID then [] else [|types| - 1])
  }

  ghost function PushedAll(order: Order, types: seq<Type>, args: seq<seq<Byte>>, n: nat): seq<Pushed>
    requires n <= |types| && Passed(types, args)
  {
    if n == 0 then [] else PushedAll(order, types, args, n - 1) + PushedFor(order, types[n - 1], args[n - 1])
  }

  lemma {:induction false} OnePerArgument(order: Order, t: Type, bytes: seq<Byte>)
    requires ArgumentFfi(t).Some? && |bytes| == ArgumentBytes(t)
    ensures |PushedFor(order, t, bytes)| == if t.code == VOID then 0 else 1
  {
  }

  /** One value per argument that is not void, in the order of the arguments. */
  lemma {:induction false} PushedInOrder(order: Order, types: seq<Type>, args: seq<seq<Byte>>, n: nat)
    requires Passed(types, args) && n <= |types|
    ensures var stack, which := PushedAll(order, types, args, n), NonVoid(types[..n]);
            && |stack| == |which|
            && forall k :: 0 <= k < |stack| ==>
                 which[k] < n && [stack[k]] == PushedFor(order, types[which[k]], args[which[k]])
  {
    if n > 0 {
      assert types[..n][..n - 1] == types[..n - 1];
      PushedInOrder(order, types, args, n - 1);
      OnePerArgument(order, types[n - 1], args[n - 1]);
    }
  }

  /** The argument push loop; no accepted type reaches the "bad type" arm. */
  method PushArguments(order: Order, types: seq<Type>, args: seq<seq<Byte>>) returns (stack: seq<Pushed>)
    requires Passed(types, args)
    ensures stack == PushedAll(order, types, args, |types|)
  {
    stack := [];
    var i := 0;
    while i < |types|
      invariant 0 <= i <= |types| && stack == PushedAll(order, types, args, i)
    {
      stack := PushNext(order, types, args, i, stack);
      i := i + 1;
    }
  }

  /** Its body. */
  method PushNext(order: Order, types: seq<Type>, args: seq<seq<Byte>>, i: nat,
                  stack: seq<Pushed>) returns (pushed: seq<Pushed>)
    requires Passed(types, args) && i < |types| && stack == PushedAll(order, types, args, i)
    ensures pushed == PushedAll(order, types, args, i + 1)
  {
    pushed := PushArgument(order, types[i], args[i], stack);
  }

  method PushArgument(order: Order, t: Type, bytes: seq<Byte>, stack: seq<Pushed>) returns (pushed: seq<Pushed>)
    requires ArgumentFfi(t).Some? && |bytes| == ArgumentBytes(t)
    ensures pushed == stack + PushedFor(order, t, bytes)
  {
    AcceptedIsMarshalled(t, true);
    match ArgArmOf(t.code) {
      case ArgNothing =>
        pushed := stack;
      case ArgInt =>
        pushed := stack + [PushedInt(LoadInt(order, IntegerOf(t.code), bytes))];
      case ArgFloat =>
        pushed := stack + [PushedFloat(bytes)];
      case ArgOpaque =>
        pushed := stack + [PushedAddress(AddressOf(order, bytes))];
      case ArgString =>
        pushed := stack + [PushedAddress(AddressOf(order, bytes))];
      case ArgRecord =>
        pushed := stack + [PushedAddress(AddressOf(order, bytes))];
      case ArgRecordValue =>
        pushed := stack + [PushedRecord(bytes)];
      case ArgBad =>
        assert false;
    }
  }

  /** A record body cut to n bytes or padded with zeros. */
  function Fitted(body: seq<Byte>, n: nat): (r: seq<Byte>)
    ensures |r| == n
  {
    seq(n, i => if 0 <= i < |body| then body[i] else 0)
  }

  /** A buffer whose front was overwritten. */
  lemma {:induction false} Overlaid(before: seq<Byte>, image: seq<Byte>, after: seq<Byte>)
    requires |image| <= |before| && after == before[..0] + image + before[|image|..]
    ensures |after| == |before| && after[..|image|] == image && after[|image|..] == before[|image|..]
  {
  }

  lemma {:induction false} FittedFrom(body: seq<Byte>, size: nat, image: seq<Byte>, padded: seq<Byte>, after: seq<Byte>)
    requires image == (if |body| > size then body[..size] else body) && size <= |padded| == |after|
    requires |image| < size ==> padded[..size] == seq(size, _ => 0)
    requires after[..|image|] == image && after[|image|..] == padded[|image|..]
    ensures after[..size] == Fitted(body, size) && after[size..] == padded[size..]
  {
    forall k | |image| <= k < |padded|
      ensures after[k] == padded[k]
    {
      assert after[|image|..][k - |image|] == padded[|image|..][k - |image|];
    }
    forall k | 0 <= k < |image|
      ensures after[k] == image[k]
    {
      assert after[..|image|][k] == image[k];
    }
    forall k | |image| <= k < size
      ensures padded[k] == 0
    {
      assert padded[..size][k] == 0;
    }
  }

  /** The record arm of the return switch: exactly record.size bytes of the result are set, from the
      returned object's body, or to zero when what came back is no object of the class. */
  method StoreRecord(result: array<Byte>, size: nat, instance: bool, body: seq<Byte>)
    requires size <= result.Length
    modifies result
    ensures result[..size] == Fitted(if instance then body else [], size)
    ensures result[size..] == old(result[size..])
  {
    if instance {
      var len := |body|;
      if len > size {
        len := size;
      } else if len < size {
        Zero(result, size);
      }
      ghost var padded := result[..];
      Poke(result, 0, body[..len]);
      Overlaid(padded, body[..len], result[..]);
      FittedFrom(body, size, body[..len], padded, result[..]);
      return;
    }
    Zero(result, size);
  }

  /** memset(result, 0, size). */
  method Zero(result: array<Byte>, size: nat)
    requires size <= result.Length
    modifies result
    ensures result[..size] == seq(size, _ => 0) && result[size..] == old(result[size..])
  {
    ghost var was := result[..];
    Poke(result, 0, seq(size, _ => 0));
    Overlaid(was, seq(size, _ => 0), result[..]);
  }
}
