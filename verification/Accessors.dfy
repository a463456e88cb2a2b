/** Which accessor a record member gets (xs/Record.xs), against the size the layout reserves for the
    member (xs/meta.c): every access to a member of any accepted type stays in its space. */
module Accessors {
  import opened TypeCodes
  import opened Words
  import opened IntegerTypes
  import opened CodeLaws
  import opened Views
  import opened Record

  /** The element type and kind of a scalar or array of this code; strings and records are scalars only. */
  function Elements(code: Code): Option<(IntType, Kind)> {
    if IsInteger(code) then Some((IntegerOf(code), Integer))
    else if code == FLOAT then Some((IntType(4, false), Floating))
    else if code == DOUBLE then Some((IntType(8, false), Floating))
    else if code == OPAQUE then Some((ADDRESS, Opaque))
    else None
  }

  /** _accessor: None is the "type not supported" answer.  `rw` is the string sub type. */
  function Choose(offset: nat, t: Type, rw: bool): Option<Member> {
    var isArray := Shape(t.code) == SHAPE_ARRAY;
    if t.code == STRING then Some(Member(offset, 1, ADDRESS, if rw then StringRw else StringRo, false))
    else if t.code == RECORD then Some(Member(offset, t.recordSize, IntType(1, false), FixedString, false))
    else
      match Elements(if isArray then Stem(t.code) else t.code)
      case None => None
      case Some((elements, kind)) =>
        Some(Member(offset, if isArray then t.elementCount else 1, elements, kind, isArray))
  }

  /** The accepted types are just the integer, float, double and opaque scalars and arrays, strings
      and fixed-size records. */
  lemma {:induction false} AcceptedTypes(offset: nat, t: Type, rw: bool)
    ensures Choose(offset, t, rw).Some? <==>
            IsInteger(t.code) || t.code == FLOAT || t.code == DOUBLE || t.code == OPAQUE || t.code == STRING ||
                t.code == RECORD ||
            (Shape(t.code) == SHAPE_ARRAY &&
             (IsInteger(Stem(t.code)) || Stem(t.code) == FLOAT || Stem(t.code) == DOUBLE || Stem(t.code) == OPAQUE))
  {
  }

  /** The accessor chosen fits the bits of the type: which kind it is, the width and signedness of its elements,
      and how many there are. */
  lemma {:induction false} ChosenByBits(offset: nat, t: Type, rw: bool)
    requires Choose(offset, t, rw).Some?
    ensures var m, base := Choose(offset, t, rw).value, Base(t.code);
            && m.kind == (if base == BASE_SINT || base == BASE_UINT then Integer
                          else if base == BASE_FLOAT then Floating
                          else if base == BASE_OPAQUE then Opaque
                          else if base == Base(RECORD) then FixedString
                          else if rw then StringRw else StringRo)
            && (m.kind.Integer? ==> HasBits(t.code, m.t))
            && (m.kind.Floating? ==> m.t == IntType(SizeField(t.code), false))
            && (m.isArray <==> Shape(t.code) == SHAPE_ARRAY)
            && m.count == if m.isArray then t.elementCount else if t.code == RECORD then t.recordSize else 1
  {
    UnitBytesIsField(t.code);
    var code := if Shape(t.code) == SHAPE_ARRAY then Stem(t.code) else t.code;
    if IsInteger(code) {
      IntegerBits(code);
      assert SizeField(t.code) == SizeField(code) && Base(t.code) == Base(code);
    }
  }

  lemma {:induction false} ElementSize(t: Type, code: Code)
    requires Elements(code).Some? && (t.code == code || (Shape(t.code) == SHAPE_ARRAY && Stem(t.code) == code))
    ensures UnitSize(t) == Elements(code).value.0.bytes
    ensures SizeOf(t) == if Shape(t.code) == SHAPE_ARRAY then UnitSize(t) * t.elementCount else UnitSize(t)
  {
  }

  /** Whatever type is accepted, the view of the accessor is exactly as long as the space the layout
      reserves, and made for elements of its kind. */
  lemma {:induction false} FootprintIsSize(offset: nat, t: Type, rw: bool)
    requires Choose(offset, t, rw).Some?
    ensures var m := Choose(offset, t, rw).value;
            KindFits(m) && m.offset == offset && Footprint(m) == SizeOf(t)
  {
    var m := Choose(offset, t, rw).value;
    SpanIsProduct(m.count, m.t.bytes);
    if t.code != STRING && t.code != RECORD {
      var code := if m.isArray then Stem(t.code) else t.code;
      ElementSize(t, code);
      MulComm(m.count, m.t.bytes);
    }
  }

  /** An access through an accessor of any accepted type, in range, reads and writes nothing but the
      bytes the layout reserves for the member: everything else stays, and two buffers that agree
      there give the same reply and still agree there. */
  lemma {:induction false} AccessStaysInside(order: Order, offset: nat, t: Type, rw: bool, readOnly: bool,
                                             request: Request, void: bool, bytes: seq<Byte>, bytes': seq<Byte>)
    requires Choose(offset, t, rw).Some? && offset + SizeOf(t) <= |bytes|
    requires Suits(Choose(offset, t, rw).value, request) && !Escapes(Choose(offset, t, rw).value, readOnly, request)
    requires SameInside(offset, SizeOf(t), bytes, bytes')
    ensures KindFits(Choose(offset, t, rw).value) && Footprint(Choose(offset, t, rw).value) == SizeOf(t)
    ensures var m := Choose(offset, t, rw).value;
            var r, r' := Access(order, m, readOnly, request, void, bytes),
                Access(order, m, readOnly, request, void, bytes');
            && SameOutside(offset, SizeOf(t), bytes, r.0)
            && r.1 == r'.1 && Contents(order, m, r.0) == Contents(order, m, r'.0)
  {
    FootprintIsSize(offset, t, rw);
    var m := Choose(offset, t, rw).value;
    AccessFrame(order, m, readOnly, request, void, bytes);
    ReplyFromFootprint(order, m, readOnly, request, void, bytes, bytes');
  }

  /** Accesses to members laid out apart commute, whatever two accepted types they have. */
  lemma {:induction false} AcceptedCommute(order: Order, offset: nat, t: Type, other: nat, u: Type, rw: bool,
                                           rw': bool, readOnly: bool, request: Request, void: bool,
                                           request': Request, void': bool, bytes: seq<Byte>)
    requires Choose(offset, t, rw).Some? && Choose(other, u, rw').Some?
    requires offset + SizeOf(t) <= |bytes| && other + SizeOf(u) <= |bytes| && Apart(offset, SizeOf(t), other, SizeOf(u))
    requires Suits(Choose(offset, t, rw).value, request) && !Escapes(Choose(offset, t, rw).value, readOnly, request)
    requires Suits(Choose(other, u, rw').value, request') && !Escapes(Choose(other, u, rw').value, readOnly, request')
    ensures InRecord(Choose(offset, t, rw).value, |bytes|) && InRecord(Choose(other, u, rw').value, |bytes|)
    ensures var m, n := Choose(offset, t, rw).value, Choose(other, u, rw').value;
            var (first, reply) := Access(order, m, readOnly, request, void, bytes);
            var (both, reply') := Access(order, n, readOnly, request', void', first);
            var (first', reply'') := Access(order, n, readOnly, request', void', bytes);
            Access(order, m, readOnly, request, void, first') == (both, reply) && reply' == reply''
  {
    FootprintIsSize(offset, t, rw);
    FootprintIsSize(other, u, rw');
    AccessesCommute(order, Choose(offset, t, rw).value, Choose(other, u, rw').value, readOnly, request, void, request',
        void', bytes);
  }
}
