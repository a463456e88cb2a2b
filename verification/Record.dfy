/** Members of a record and their accessors (maint/tt/accessor.tt, xs/record_opaque.c,
    xs/record_string.c): views of every kind over one byte buffer, and the simple picture they
    implement, a map from members to lists. */
module Record {
  import opened TypeCodes
  import opened Words
  import opened IntegerTypes
  import opened Views
  import opened Errors
  import RecordString

  /** The accessors: those generated for integers, those generated for float and double, the pointer
      ones, and the three string ones. */
  datatype Kind = Integer | Floating | Opaque | FixedString | StringRo | StringRw

  /** ffi_pl_record_member with the accessor chosen for it: `count` elements of type t.  A float or
      double is shown by its bit pattern, a pointer by its address, a fixed string byte by byte. */
  datatype Member = Member(offset: nat, count: nat, t: IntType, kind: Kind, isArray: bool)

  /** A Perl scalar: undef, an integer, a number given by the bit pattern of the float or double it
      converts to, a string, or (for string members) a string that realloc puts at an address. */
  datatype PerlValue = Nil | Whole(value: int) | Num(bits: int) | Text(bytes: seq<Byte>) | At(address: int)

  /** The arguments after the object: none, one value, an index and a value, an index, or an array
      reference.  Indices are C ints by the time they are used, see `Asked`. */
  datatype Request = Get | Put(value: PerlValue) | GetAt(index: int) | PutAt(index: int, value: PerlValue)
                   | PutAll(list: seq<PerlValue>)

  datatype Reply = Croak(error: Error) | Empty | Value(value: PerlValue) | List(list: seq<PerlValue>)

  /** SvIV into a C int. */
  function CInt(index: int): int {
    FromPerl(IntType(4, true), index)
  }

  /** A request as the array accessors see it, its index cut to a C int. */
  function Asked(request: Request): Request {
    match request
    case GetAt(index) => GetAt(CInt(index))
    case PutAt(index, v) => PutAt(CInt(index), v)
    case _ => request
  }

  /** The cut changes nothing for indices that fit. */
  lemma {:induction false} AskedIndex(index: int)
    ensures -0x8000_0000 <= CInt(index) < 0x8000_0000 && CInt(index) % 0x1_0000_0000 == index % 0x1_0000_0000
    ensures -0x8000_0000 <= index < 0x8000_0000 ==> CInt(index) == index
    ensures forall v :: Asked(PutAt(index, v)) == PutAt(CInt(index), v)
    ensures Asked(GetAt(index)) == GetAt(CInt(index))
  {
    FromPerlIsCast(IntType(4, true), index);
    CastFacts(IntType(4, true), index);
    FourBytes();
  }

  lemma {:induction false} FourBytes()
    ensures Modulus(IntType(4, true)) == 0x1_0000_0000
  {
    assert Pow256(1) == 256 && Pow256(2) == 256 * Pow256(1) && Pow256(3) == 256 * Pow256(2);
  }

  /** The type of the elements is that of the kind. */
  predicate KindFits(m: Member) {
    match m.kind
    case Integer => 0 < m.t.bytes <= 8
    case Floating => m.t == IntType(4, false) || m.t == IntType(8, false)
    case Opaque => m.t == ADDRESS
    case FixedString => m.t == IntType(1, false) && !m.isArray
    case _ => m.t == ADDRESS && m.count == 1 && !m.isArray
  }

  /** Perl values that make sense for a member. */
  predicate Suitable(m: Member, v: PerlValue) {
    match m.kind
    case Integer => v.Nil? || v.Whole?
    case Floating => v.Nil? || (v.Num? && InRange(m.t, v.bits))
    case Opaque => v.Nil? || v.Whole?
    case FixedString => v.Nil? || v.Text?
    case StringRo => true
    case StringRw => v.Nil? || (v.At? && v.address != 0 && InRange(ADDRESS, v.address))
  }

  predicate Suits(m: Member, request: Request) {
    if m.isArray then
      match request
      case Get => true
      case GetAt(_) => true
      case Put(_) => false
      case PutAt(_, v) => Suitable(m, v)
      case PutAll(vs) => forall i :: 0 <= i < |vs| ==> Suitable(m, vs[i])
    else
      (m.count == 1 || m.kind.FixedString?) && (request.Get? || (request.Put? && Suitable(m, request.value)))
  }

  /** What is stored for a Perl value; undef is 0, 0.0 or NULL. */
  function Stored(m: Member, v: PerlValue): int {
    match v
    case Whole(x) => FromPerl(m.t, x)
    case Num(bits) => bits
    case At(address) => address
    case _ => 0
  }

  /** What an element shows as; NULL shows as undef. */
  function Shown(m: Member, x: int): PerlValue {
    match m.kind
    case Integer => Whole(x)
    case Floating => Num(x)
    case Opaque => if x == 0 then Nil else Whole(x)
    case _ => if x == 0 then Nil else At(x)
  }

  function ShownAll(m: Member, list: seq<int>): (r: seq<PerlValue>)
    ensures |r| == |list|
  {
    seq(|list|, i requires 0 <= i < |list| => Shown(m, list[i]))
  }

  lemma {:induction false} ShownNext(m: Member, list: seq<int>, i: nat)
    requires i < |list|
    ensures ShownAll(m, list[..i + 1]) == ShownAll(m, list[..i]) + [Shown(m, list[i])]
  {
  }

  /** XSRETURN_EMPTY for undef. */
  function Returned(v: PerlValue): Reply {
    if v.Nil? then Empty else Value(v)
  }

  // ---- The picture: one member as a list of integers ----

  /** A Perl list cut or filled up with zeros to n elements. */
  function Assigned(m: Member, vs: seq<PerlValue>, n: nat): (r: seq<int>)
    ensures |r| == n
  {
    seq(n, i => if 0 <= i < |vs| then Stored(m, vs[i]) else 0)
  }

  /** Text laid over a fixed string: what does not fit is cut, what is not reached stays. */
  function Laid(text: seq<Byte>, list: seq<int>): (r: seq<int>)
    ensures |r| == |list|
  {
    seq(|list|, i requires 0 <= i < |list| => if i < |text| then text[i] else list[i])
  }

  function Bytes(list: seq<int>): (r: seq<Byte>)
    ensures |r| == |list|
  {
    seq(|list|, i requires 0 <= i < |list| => list[i] % 256)
  }

  /** The reasons an accessor refuses an assignment.  Any argument makes the array accessors refuse a
      read-only record, even an index. */
  function Refusal(m: Member, readOnly: bool, request: Request): (r: Option<Error>)
    ensures request.Get? ==> r == None
    ensures readOnly && !request.Get? ==> r.Some?
  {
    if request.Get? then None
    else if m.kind.StringRo? then Some(MemberReadOnly)
    else if readOnly then Some(RecordReadOnly)
    else if m.kind.FixedString? && request == Put(Nil) then Some(UndefFixed)
    else None
  }

  /** An indexed read of a pointer array whose index is out of range: the accessor reads all the same. */
  predicate Escapes(m: Member, readOnly: bool, request: Request) {
    m.kind.Opaque? && m.isArray && !readOnly && request.GetAt? && !(0 <= request.index < m.count)
  }

  function AfterPut(m: Member, request: Request, list: seq<int>): (r: seq<int>)
    requires |list| == m.count && Suits(m, request)
    ensures |r| == m.count
  {
    match request
    case Put(v) => if m.kind.FixedString? then (if v.Text? then Laid(v.bytes, list) else list) else [Stored(m, v)]
    case PutAt(index, v) => if 0 <= index < m.count then list[index := Stored(m, v)] else list
    case PutAll(vs) => Assigned(m, vs, m.count)
    case _ => list
  }

  function Answer(m: Member, void: bool, list: seq<int>): Reply
    requires m.isArray || m.kind.FixedString? || |list| == 1
  {
    if void then Empty
    else if m.isArray then List(ShownAll(m, list))
    else if m.kind.FixedString? then Value(Text(Bytes(list)))
    else Returned(Shown(m, list[0]))
  }

  /** New contents of a member and the reply. */
  function ListAccess(m: Member, readOnly: bool, request: Request, void: bool, list: seq<int>): (r: (seq<int>, Reply))
    requires |list| == m.count && Suits(m, request) && !Escapes(m, readOnly, request)
    ensures |r.0| == m.count
  {
    var refusal := Refusal(m, readOnly, request);
    if refusal.Some? then (list, Croak(refusal.value))
    else if request.GetAt? then
      (list, if 0 <= request.index < m.count then Returned(Shown(m, list[request.index])) else Empty)
    else
      var after := AfterPut(m, request, list);
      (after, Answer(m, void, after))
  }

  lemma {:induction false} StoredInRange(m: Member, v: PerlValue)
    requires KindFits(m) && Suitable(m, v) && !m.kind.FixedString? && !m.kind.StringRo?
    ensures InRange(m.t, Stored(m, v)) && InRange(m.t, 0)
  {
    ToCInRange(m.t, if v.Whole? then Int(v.value) else Undef);
  }

  /** What a Perl value becomes in a member: an integer modulo 2^n with the signedness of the type, a float or
      a string's address as it is, an address cut to a pointer; undef is 0, 0.0 or undef again. */
  function Echo(m: Member, v: PerlValue): PerlValue {
    var x := if v.Whole? then Cast(m.t, v.value) else 0;
    match m.kind
    case Integer => Whole(x)
    case Floating => if v.Num? then v else Num(0)
    case Opaque => if x == 0 then Nil else Whole(x)
    case _ => v
  }

  /** What is assigned is shown again. */
  lemma {:induction false} ShownAgain(m: Member, v: PerlValue)
    requires KindFits(m) && Suitable(m, v) && !m.kind.FixedString? && !m.kind.StringRo?
    ensures Shown(m, Stored(m, v)) == Echo(m, v)
  {
    ToCInRange(m.t, if v.Whole? then Int(v.value) else Undef);
    FromPerlIsCast(m.t, 0);
    CastFacts(m.t, 0);
  }

  // ---- The bytes ----

  predicate InRecord(m: Member, size: nat) {
    KindFits(m) && Fits(m.offset, m.t, m.count, size)
  }

  function Footprint(m: Member): nat {
    Span(m.count, m.t.bytes)
  }

  function Contents(order: Order, m: Member, bytes: seq<Byte>): (r: seq<int>)
    requires InRecord(m, |bytes|)
    ensures |r| == m.count
  {
    View(order, bytes, m.offset, m.t, m.count)
  }

  /** Where an indexed read of a pointer array reads, and that the place is in the memory shown. */
  function ReadAt(m: Member, index: int): int {
    m.offset + 8 * index
  }

  predicate Reachable(m: Member, readOnly: bool, request: Request, size: nat) {
    Escapes(m, readOnly, request) ==> 0 <= ReadAt(m, request.index) && ReadAt(m, request.index) + 8 <= size
  }

  function ReadBeyond(order: Order, m: Member, index: int, bytes: seq<Byte>): int
    requires 0 <= ReadAt(m, index) && ReadAt(m, index) + 8 <= |bytes|
  {
    LoadInt(order, ADDRESS, bytes[ReadAt(m, index)..ReadAt(m, index) + 8])
  }

  /** An access to a member of the record at the front of `bytes`, or anywhere in them. */
  function Access(order: Order, m: Member, readOnly: bool, request: Request, void: bool, bytes: seq<Byte>)
    : (r: (seq<Byte>, Reply))
    requires InRecord(m, |bytes|) && Suits(m, request) && Reachable(m, readOnly, request, |bytes|)
    ensures |r.0| == |bytes|
  {
    if Escapes(m, readOnly, request) then (bytes, Returned(Shown(m, ReadBeyond(order, m, request.index, bytes))))
    else
      var (list, reply) := ListAccess(m, readOnly, request, void, Contents(order, m, bytes));
      (Overwrite(order, bytes, m.offset, m.t, list), reply)
  }

  lemma {:induction false} AssignedInRange(m: Member, list: seq<PerlValue>)
    requires Suits(m, PutAll(list)) && KindFits(m)
    ensures AllInRange(m.t, Assigned(m, list, m.count))
  {
    forall i | 0 <= i < m.count
      ensures InRange(m.t, Assigned(m, list, m.count)[i])
    {
      StoredInRange(m, if i < |list| then list[i] else Nil);
    }
  }

  lemma {:induction false} AfterPutInRange(m: Member, request: Request, list: seq<int>)
    requires |list| == m.count && Suits(m, request) && KindFits(m) && AllInRange(m.t, list)
    requires Refusal(m, false, request).None?
    ensures AllInRange(m.t, AfterPut(m, request, list))
  {
    if request.PutAll? {
      AssignedInRange(m, request.list);
    } else if (request.Put? && !m.kind.FixedString?) || request.PutAt? {
      StoredInRange(m, request.value);
    } else if request.Put? {
      assert Pow256(1) == 256 * Pow256(0);
    }
  }

  lemma {:induction false} ListAccessInRange(m: Member, readOnly: bool, request: Request, void: bool, list: seq<int>)
    requires |list| == m.count && Suits(m, request) && KindFits(m) && AllInRange(m.t, list)
    requires !Escapes(m, readOnly, request)
    ensures AllInRange(m.t, ListAccess(m, readOnly, request, void, list).0)
  {
    if Refusal(m, readOnly, request).None? {
      AfterPutInRange(m, request, list);
    }
  }

  lemma {:induction false} NothingAssigned(m: Member, readOnly: bool, request: Request, void: bool, list: seq<int>)
    requires |list| == m.count && Suits(m, request) && !Escapes(m, readOnly, request)
    ensures var (after, reply) := ListAccess(m, readOnly, request, void, list);
            reply.Croak? || request.Get? || request.GetAt? ==> after == list
  {
  }

  /** One access: the member's contents change as the picture says and nothing else is touched. */
  lemma {:induction false} AccessRefines(order: Order, m: Member, readOnly: bool, request: Request, void: bool,
                                         bytes: seq<Byte>)
    requires InRecord(m, |bytes|) && Suits(m, request) && !Escapes(m, readOnly, request)
    ensures var (after, reply) := Access(order, m, readOnly, request, void, bytes);
            && (Contents(order, m, after), reply) == ListAccess(m, readOnly, request, void, Contents(order, m, bytes))
            && (reply.Croak? || request.Get? || request.GetAt? ==> after == bytes)
  {
    var list := Contents(order, m, bytes);
    ViewInRange(order, bytes, m.offset, m.t, m.count);
    ListAccessInRange(m, readOnly, request, void, list);
    NothingAssigned(m, readOnly, request, void, list);
    ViewOfOverwrite(order, bytes, m.offset, m.t, ListAccess(m, readOnly, request, void, list).0);
    OverwriteOfView(order, bytes, m.offset, m.t, m.count);
  }

  /** The frame: whatever is asked of a member of whatever kind, bytes outside its footprint stay. */
  lemma {:induction false} AccessFrame(order: Order, m: Member, readOnly: bool, request: Request, void: bool,
                                       bytes: seq<Byte>)
    requires InRecord(m, |bytes|) && Suits(m, request) && Reachable(m, readOnly, request, |bytes|)
    ensures SameOutside(m.offset, Footprint(m), bytes, Access(order, m, readOnly, request, void, bytes).0)
  {
    if !Escapes(m, readOnly, request) {
      var list := ListAccess(m, readOnly, request, void, Contents(order, m, bytes)).0;
      OverwriteOutside(order, bytes, m.offset, m.t, list);
    }
  }

  ghost predicate SameInside(offset: nat, size: nat, before: seq<Byte>, after: seq<Byte>) {
    |before| == |after| && offset + size <= |before| && before[offset..offset + size] == after[offset..offset + size]
  }

  lemma {:induction false} SameContents(order: Order, m: Member, before: seq<Byte>, after: seq<Byte>)
    requires InRecord(m, |before|) && SameInside(m.offset, Footprint(m), before, after)
    ensures Contents(order, m, before) == Contents(order, m, after)
  {
    forall i | 0 <= i < m.count
      ensures Element(order, before, m.offset, m.t, m.count, i) == Element(order, after, m.offset, m.t, m.count, i)
    {
      Stride(i, m.count, m.t.bytes);
      var at := m.offset + Span(i, m.t.bytes);
      SlicesInside(before, after, m.offset, Footprint(m), at, m.t.bytes);
      ElementIs(order, before, m.offset, m.t, m.count, i, at, before[at..at + m.t.bytes]);
      ElementIs(order, after, m.offset, m.t, m.count, i, at, before[at..at + m.t.bytes]);
    }
  }

  lemma {:induction false} SlicesInside(before: seq<Byte>, after: seq<Byte>, offset: nat, size: nat, at: nat, n: nat)
    requires SameInside(offset, size, before, after) && offset <= at && at + n <= offset + size
    ensures before[at..at + n] == after[at..at + n]
  {
    forall k | at <= k < at + n
      ensures before[k] == after[k]
    {
      assert before[offset..offset + size][k - offset] == after[offset..offset + size][k - offset];
    }
  }

  /** The reply and the member's new contents depend on nothing but the bytes of its footprint,
      unless the index of a pointer array escapes. */
  lemma {:induction false} ReplyFromFootprint(order: Order, m: Member, readOnly: bool, request: Request, void: bool,
                                              bytes: seq<Byte>, bytes': seq<Byte>)
    requires InRecord(m, |bytes|) && Suits(m, request) && !Escapes(m, readOnly, request)
    requires SameInside(m.offset, Footprint(m), bytes, bytes')
    ensures var r, r' := Access(order, m, readOnly, request, void, bytes),
            Access(order, m, readOnly, request, void, bytes');
            r.1 == r'.1 && Contents(order, m, r.0) == Contents(order, m, r'.0)
  {
    SameContents(order, m, bytes, bytes');
    AccessRefines(order, m, readOnly, request, void, bytes);
    AccessRefines(order, m, readOnly, request, void, bytes');
  }

  // ---- Indexed reads of pointer arrays ----

  /** The reply to an indexed read does not depend on bytes outside the member. */
  ghost predicate ReadsInside(order: Order, m: Member, index: int, bytes: seq<Byte>)
    requires InRecord(m, |bytes|) && m.isArray && Reachable(m, false, GetAt(index), |bytes|)
  {
    forall bytes' :: SameInside(m.offset, Footprint(m), bytes, bytes') ==>
      Access(order, m, false, GetAt(index), false, bytes').1 == Access(order, m, false, GetAt(index), false, bytes).1
  }

  /** Memory with the eight bytes at `at` holding the address x. */
  function WithAddress(order: Order, bytes: seq<Byte>, at: nat, x: int): (r: seq<Byte>)
    requires at + 8 <= |bytes|
    ensures |r| == |bytes|
  {
    Patched(bytes, at, StoreInt(order, ADDRESS, x))
  }

  lemma {:induction false} AddressThere(order: Order, m: Member, index: int, bytes: seq<Byte>, x: int)
    requires 0 <= ReadAt(m, index) && ReadAt(m, index) + 8 <= |bytes| && InRange(ADDRESS, x)
    ensures ReadBeyond(order, m, index, WithAddress(order, bytes, ReadAt(m, index), x)) == x
  {
    var at := ReadAt(m, index);
    var after := WithAddress(order, bytes, at, x);
    assert after[at..at + 8] == StoreInt(order, ADDRESS, x);
    StoreLoad(order, ADDRESS, x);
  }

  /** An indexed read of a pointer array stays inside the member if and only if the index is in
      range: the guard in front of it, which asks for an index both too small and too large, never
      refuses. */
  lemma {:induction false} IndexedReadEscapes(order: Order, m: Member, index: int, bytes: seq<Byte>)
    requires InRecord(m, |bytes|) && m.kind.Opaque? && m.isArray && Reachable(m, false, GetAt(index), |bytes|)
    ensures ReadsInside(order, m, index, bytes) <==> 0 <= index < m.count
  {
    if 0 <= index < m.count {
      forall bytes' | SameInside(m.offset, Footprint(m), bytes, bytes')
        ensures Access(order, m, false, GetAt(index), false, bytes').1 ==
                Access(order, m, false, GetAt(index), false, bytes).1
      {
        ReplyFromFootprint(order, m, false, GetAt(index), false, bytes', bytes);
      }
    } else {
      var one, two := WithAddress(order, bytes, ReadAt(m, index), 1), WithAddress(order, bytes, ReadAt(m, index), 2);
      SmallAddresses();
      ReadsApart(m, index);
      OutsideFootprint(order, m, ReadAt(m, index), bytes, 1);
      OutsideFootprint(order, m, ReadAt(m, index), bytes, 2);
      AddressRead(order, m, index, bytes, 1);
      AddressRead(order, m, index, bytes, 2);
      assert SameInside(m.offset, Footprint(m), bytes, one) && SameInside(m.offset, Footprint(m), bytes, two);
    }
  }

  /** Whatever address lies beyond the member is what the read returns. */
  lemma {:induction false} AddressRead(order: Order, m: Member, index: int, bytes: seq<Byte>, x: int)
    requires InRecord(m, |bytes|) && m.kind.Opaque? && m.isArray && Reachable(m, false, GetAt(index), |bytes|)
    requires !(0 <= index < m.count) && InRange(ADDRESS, x) && x != 0
    ensures Access(order, m, false, GetAt(index), false, WithAddress(order, bytes, ReadAt(m, index), x)).1 ==
            Value(Whole(x))
  {
    AddressThere(order, m, index, bytes, x);
  }

  lemma {:induction false} ReadsApart(m: Member, i: int)
    requires m.t.bytes == 8 && !(0 <= i < m.count)
    ensures 8 * i + 8 <= 0 || Footprint(m) <= 8 * i
  {
    SpanIsProduct(m.count, 8);
  }

  lemma {:induction false} SmallAddresses()
    ensures InRange(ADDRESS, 1) && InRange(ADDRESS, 2)
  {
    assert Pow256(8) == 256 * Pow256(7) && Pow256(7) >= 1;
  }

  lemma {:induction false} OutsideFootprint(order: Order, m: Member, at: nat, bytes: seq<Byte>, x: int)
    requires InRecord(m, |bytes|) && at + 8 <= |bytes| && (at + 8 <= m.offset || m.offset + Footprint(m) <= at)
    ensures SameInside(m.offset, Footprint(m), bytes, WithAddress(order, bytes, at, x))
  {
    PatchedElsewhere(bytes, at, StoreInt(order, ADDRESS, x), m.offset, Footprint(m));
  }

  lemma {:induction false} PatchedElsewhere(bytes: seq<Byte>, at: nat, image: seq<Byte>, offset: nat, size: nat)
    requires at + |image| <= |bytes| && offset + size <= |bytes| && Apart(at, |image|, offset, size)
    ensures Patched(bytes, at, image)[offset..offset + size] == bytes[offset..offset + size]
  {
    PokedOutside(bytes, Patched(bytes, at, image), at, image, at, |image|);
    SameSlice(at, |image|, bytes, Patched(bytes, at, image), offset, size);
  }

  /** An element of an array can be read by index exactly when the record is writable: the array
      accessors test the read-only flag before they look at what was asked. */
  lemma {:induction false} IndexReadNeedsWritable(order: Order, m: Member, readOnly: bool, index: int, void: bool,
                                                  bytes: seq<Byte>)
    requires InRecord(m, |bytes|) && m.isArray && 0 <= index < m.count
    ensures Access(order, m, readOnly, GetAt(index), void, bytes).1 ==
              Returned(Shown(m, Contents(order, m, bytes)[index])) <==>
            !readOnly
  {
    IndexedReply(order, m, readOnly, index, void, bytes);
  }

  /** An index out of range gives the empty list. */
  lemma {:induction false} IndexOutside(order: Order, m: Member, i: int, void: bool, bytes: seq<Byte>)
    requires InRecord(m, |bytes|) && m.isArray && !m.kind.Opaque? && !(0 <= i < m.count)
    ensures Access(order, m, false, GetAt(i), void, bytes) == (bytes, Empty)
  {
    OverwriteOfView(order, bytes, m.offset, m.t, m.count);
  }

  lemma {:induction false} IndexedReply(order: Order, m: Member, readOnly: bool, i: int, void: bool, bytes: seq<Byte>)
    requires InRecord(m, |bytes|) && m.isArray && 0 <= i < m.count
    ensures Access(order, m, readOnly, GetAt(i), void, bytes) ==
            (bytes, if readOnly then Croak(RecordReadOnly) else Returned(Shown(m, Contents(order, m, bytes)[i])))
  {
    AccessRefines(order, m, readOnly, GetAt(i), void, bytes);
    IndexedList(m, readOnly, i, void, Contents(order, m, bytes));
  }

  lemma {:induction false} IndexedList(m: Member, readOnly: bool, i: int, void: bool, list: seq<int>)
    requires m.isArray && KindFits(m) && 0 <= i < m.count == |list|
    ensures ListAccess(m, readOnly, GetAt(i), void, list) ==
            (list, if readOnly then Croak(RecordReadOnly) else Returned(Shown(m, list[i])))
  {
  }

  // ---- What was assigned is what is read ----

  /** The reply to a request for element j of a writable array. */
  function ElementReply(order: Order, m: Member, j: nat, void: bool, bytes: seq<Byte>): Reply
    requires InRecord(m, |bytes|) && m.isArray && j < m.count
  {
    Access(order, m, false, GetAt(j), void, bytes).1
  }

  lemma {:induction false} ElementReplyIs(order: Order, m: Member, j: nat, void: bool, bytes: seq<Byte>)
    requires InRecord(m, |bytes|) && m.isArray && j < m.count
    ensures ElementReply(order, m, j, void, bytes) == Returned(Shown(m, Contents(order, m, bytes)[j]))
  {
    IndexedReply(order, m, false, j, void, bytes);
  }

  lemma {:induction false} ArrayContents(order: Order, m: Member, request: Request, void: bool, bytes: seq<Byte>)
    requires InRecord(m, |bytes|) && m.isArray && Suits(m, request) && !request.GetAt?
    ensures var (after, reply) := Access(order, m, false, request, void, bytes);
            Contents(order, m, after) == AfterPut(m, request, Contents(order, m, bytes)) &&
            reply == if void then Empty else List(ShownAll(m, Contents(order, m, after)))
  {
    AccessRefines(order, m, false, request, void, bytes);
  }

  /** Assigning element i of a writable array: element i shows the value from then on, every other element
      what it showed, and an index out of range changes nothing. */
  lemma {:induction false} AssignedElement(order: Order, m: Member, i: int, v: PerlValue, j: nat, void: bool,
                                           void': bool, bytes: seq<Byte>)
    requires InRecord(m, |bytes|) && m.isArray && Suitable(m, v) && j < m.count
    ensures var (after, reply) := Access(order, m, false, PutAt(i, v), void, bytes);
            && ElementReply(order, m, j, void', after) ==
               (if j == i then Returned(Echo(m, v)) else ElementReply(order, m, j, void', bytes))
            && (!(0 <= i < m.count) ==> after == bytes)
  {
    var after := Access(order, m, false, PutAt(i, v), void, bytes).0;
    ArrayContents(order, m, PutAt(i, v), void, bytes);
    PutElement(m, i, v, Contents(order, m, bytes), j);
    ElementReplyIs(order, m, j, void', bytes);
    ElementReplyIs(order, m, j, void', after);
    ShownAgain(m, v);
    if !(0 <= i < m.count) {
      PutOutside(order, m, i, v, void, bytes);
    }
  }

  lemma {:induction false} PutElement(m: Member, i: int, v: PerlValue, list: seq<int>, j: nat)
    requires |list| == m.count && Suits(m, PutAt(i, v)) && j < m.count
    ensures AfterPut(m, PutAt(i, v), list)[j] == if j == i then Stored(m, v) else list[j]
  {
  }

  lemma {:induction false} PutOutside(order: Order, m: Member, i: int, v: PerlValue, void: bool, bytes: seq<Byte>)
    requires InRecord(m, |bytes|) && m.isArray && Suitable(m, v) && !(0 <= i < m.count)
    ensures Access(order, m, false, PutAt(i, v), void, bytes).0 == bytes
  {
    OverwriteOfView(order, bytes, m.offset, m.t, m.count);
    PutListOutside(m, i, v, void, Contents(order, m, bytes));
  }

  lemma {:induction false} PutListOutside(m: Member, i: int, v: PerlValue, void: bool, list: seq<int>)
    requires |list| == m.count && Suits(m, PutAt(i, v)) && !(0 <= i < m.count)
    ensures ListAccess(m, false, PutAt(i, v), void, list).0 == list
  {
  }

  /** Assigning a list: every element shows the value at its place, and where the list is too short what
      undef gives. */
  lemma {:induction false} AssignedList(order: Order, m: Member, vs: seq<PerlValue>, j: nat, void: bool, void': bool,
                                        bytes: seq<Byte>)
    requires InRecord(m, |bytes|) && m.isArray && j < m.count && forall i :: 0 <= i < |vs| ==> Suitable(m, vs[i])
    ensures var (after, reply) := Access(order, m, false, PutAll(vs), void, bytes);
            ElementReply(order, m, j, void', after) == Returned(Echo(m, if j < |vs| then vs[j] else Nil))
  {
    var after := Access(order, m, false, PutAll(vs), void, bytes).0;
    ArrayContents(order, m, PutAll(vs), void, bytes);
    ElementReplyIs(order, m, j, void', after);
    ShownAgain(m, if j < |vs| then vs[j] else Nil);
  }

  /** The list an array accessor returns has at each place what asking for that element gives. */
  lemma {:induction false} ListedElement(order: Order, m: Member, request: Request, j: nat, bytes: seq<Byte>)
    requires InRecord(m, |bytes|) && m.isArray && Suits(m, request) && !request.GetAt? && j < m.count
    ensures var (after, reply) := Access(order, m, false, request, false, bytes);
            reply.List? && |reply.list| == m.count &&
            Returned(reply.list[j]) == ElementReply(order, m, j, false, after)
  {
    var after := Access(order, m, false, request, false, bytes).0;
    ArrayContents(order, m, request, false, bytes);
    ElementReplyIs(order, m, j, false, after);
  }

  /** Assigning a scalar: it shows the value from then on, and the assignment itself returns it. */
  lemma {:induction false} AssignedScalar(order: Order, m: Member, v: PerlValue, void: bool, void': bool,
                                          bytes: seq<Byte>)
    requires InRecord(m, |bytes|) && !m.isArray && m.count == 1 && Suitable(m, v)
    requires !m.kind.FixedString? && !m.kind.StringRo?
    ensures var (after, reply) := Access(order, m, false, Put(v), void, bytes);
            && reply == (if void then Empty else Returned(Echo(m, v)))
            && Access(order, m, false, Get, void', after).1 == if void' then Empty else Returned(Echo(m, v))
  {
    var after := Access(order, m, false, Put(v), void, bytes).0;
    AccessRefines(order, m, false, Put(v), void, bytes);
    AccessRefines(order, m, false, Get, void', after);
    ShownAgain(m, v);
  }

  // ---- Whole runs over a record with many members ----

  type Layout = seq<Member>

  ghost predicate Disjoint(layout: Layout, size: nat) {
    && (forall i :: 0 <= i < |layout| ==> InRecord(layout[i], size))
    && (forall i, j :: 0 <= i < |layout| && 0 <= j < |layout| && i != j ==>
          Apart(layout[i].offset, Footprint(layout[i]), layout[j].offset, Footprint(layout[j])))
  }

  datatype Step = Step(member: nat, request: Request, void: bool)

  predicate ProperStep(layout: Layout, readOnly: bool, step: Step) {
    step.member < |layout| && Suits(layout[step.member], step.request) &&
    !Escapes(layout[step.member], readOnly, step.request)
  }

  predicate Proper(layout: Layout, readOnly: bool, steps: seq<Step>) {
    forall i :: 0 <= i < |steps| ==> ProperStep(layout, readOnly, steps[i])
  }

  /** The members' contents, member by member. */
  function Picture(order: Order, layout: Layout, bytes: seq<Byte>): (r: seq<seq<int>>)
    requires forall i :: 0 <= i < |layout| ==> InRecord(layout[i], |bytes|)
    ensures |r| == |layout| && forall i :: 0 <= i < |layout| ==> r[i] == Contents(order, layout[i], bytes)
  {
    seq(|layout|, i requires 0 <= i < |layout| => Contents(order, layout[i], bytes))
  }

  function RunBytes(order: Order, layout: Layout, readOnly: bool, steps: seq<Step>,
                    bytes: seq<Byte>): (r: (seq<Byte>, seq<Reply>))
    requires Proper(layout, readOnly, steps) && forall i :: 0 <= i < |layout| ==> InRecord(layout[i], |bytes|)
    ensures |r.0| == |bytes|
  {
    if steps == [] then (bytes, [])
    else
      var last := steps[|steps| - 1];
      var (before, replies) := RunBytes(order, layout, readOnly, steps[..|steps| - 1], bytes);
      var (after, reply) := Access(order, layout[last.member], readOnly, last.request, last.void, before);
      (after, replies + [reply])
  }

  ghost predicate Shaped(layout: Layout, picture: seq<seq<int>>) {
    |picture| == |layout| && forall i :: 0 <= i < |layout| ==> |picture[i]| == layout[i].count
  }

  /** The same run on the picture alone: each step changes one list. */
  ghost function RunPicture(layout: Layout, readOnly: bool, steps: seq<Step>,
                            picture: seq<seq<int>>): (r: (seq<seq<int>>, seq<Reply>))
    requires Proper(layout, readOnly, steps) && Shaped(layout, picture)
    ensures Shaped(layout, r.0)
  {
    if steps == [] then (picture, [])
    else
      var last := steps[|steps| - 1];
      var (before, replies) := RunPicture(layout, readOnly, steps[..|steps| - 1], picture);
      var (list, reply) := ListAccess(layout[last.member], readOnly, last.request, last.void, before[last.member]);
      (before[last.member := list], replies + [reply])
  }

  /** An access to one member shows in the picture at that member only. */
  lemma {:induction false} AccessPicture(order: Order, layout: Layout, readOnly: bool, step: Step, bytes: seq<Byte>)
    requires Disjoint(layout, |bytes|) && ProperStep(layout, readOnly, step)
    ensures var m := layout[step.member];
            var (after, reply) := Access(order, m, readOnly, step.request, step.void, bytes);
            var (list, reply') := ListAccess(m, readOnly, step.request, step.void, Contents(order, m, bytes));
            Picture(order, layout, after) == Picture(order, layout, bytes)[step.member := list] && reply == reply'
  {
    var m := layout[step.member];
    AccessRefines(order, m, readOnly, step.request, step.void, bytes);
    var list := ListAccess(m, readOnly, step.request, step.void, Contents(order, m, bytes)).0;
    PictureAfter(order, layout, step.member, bytes, list);
  }

  lemma {:induction false} PictureAfter(order: Order, layout: Layout, j: nat, bytes: seq<Byte>, list: seq<int>)
    requires Disjoint(layout, |bytes|) && j < |layout| && |list| == layout[j].count
    requires Contents(order, layout[j], Overwrite(order, bytes, layout[j].offset, layout[j].t, list)) == list
    ensures Picture(order, layout, Overwrite(order, bytes, layout[j].offset, layout[j].t, list)) ==
            Picture(order, layout, bytes)[j := list]
  {
    var after := Overwrite(order, bytes, layout[j].offset, layout[j].t, list);
    forall i | 0 <= i < |layout| && i != j
      ensures Contents(order, layout[i], after) == Contents(order, layout[i], bytes)
    {
      ContentsElsewhere(order, layout, j, i, bytes, list);
    }
  }

  lemma {:induction false} ContentsElsewhere(order: Order, layout: Layout, j: nat, i: nat, bytes: seq<Byte>,
                                             list: seq<int>)
    requires Disjoint(layout, |bytes|) && i < |layout| && j < |layout| && i != j && |list| == layout[j].count
    ensures Contents(order, layout[i], Overwrite(order, bytes, layout[j].offset, layout[j].t, list)) ==
            Contents(order, layout[i], bytes)
  {
    var m, u := layout[j], layout[i];
    assert Apart(m.offset, Footprint(m), u.offset, Footprint(u));
    ViewElsewhere(order, bytes, m.offset, m.t, list, u.offset, u.t, u.count);
  }

  /** Accesses to members with disjoint footprints commute, whatever their kinds, replies included. */
  lemma {:induction false} AccessesCommute(order: Order, m: Member, n: Member, readOnly: bool, request: Request,
                                           void: bool,
                                           request': Request, void': bool, bytes: seq<Byte>)
    requires InRecord(m, |bytes|) && InRecord(n, |bytes|) && Suits(m, request) && Suits(n, request')
    requires !Escapes(m, readOnly, request) && !Escapes(n, readOnly, request')
    requires Apart(m.offset, Footprint(m), n.offset, Footprint(n))
    ensures var (first, reply) := Access(order, m, readOnly, request, void, bytes);
            var (both, reply') := Access(order, n, readOnly, request', void', first);
            var (first', reply'') := Access(order, n, readOnly, request', void', bytes);
            Access(order, m, readOnly, request, void, first') == (both, reply) && reply' == reply''
  {
    var before, before' := Contents(order, m, bytes), Contents(order, n, bytes);
    var list, list' := ListAccess(m, readOnly, request, void, before).0,
        ListAccess(n, readOnly, request', void', before').0;
    ViewElsewhere(order, bytes, m.offset, m.t, list, n.offset, n.t, n.count);
    ViewElsewhere(order, bytes, n.offset, n.t, list', m.offset, m.t, m.count);
    OverwritesCommute(order, bytes, m.offset, m.t, list, n.offset, n.t, list');
  }

  /** Record refinement: over any sequence of in-range accesses to members of any kinds with disjoint
      footprints, every reply and the final contents of every member are those of the simple picture. */
  lemma {:induction false} RunRefines(order: Order, layout: Layout, readOnly: bool, steps: seq<Step>, bytes: seq<Byte>)
    requires Disjoint(layout, |bytes|) && Proper(layout, readOnly, steps)
    ensures var (after, replies) := RunBytes(order, layout, readOnly, steps, bytes);
            (Picture(order, layout, after), replies) ==
                RunPicture(layout, readOnly, steps, Picture(order, layout, bytes))
  {
    if steps != [] {
      var earlier := steps[..|steps| - 1];
      var last := steps[|steps| - 1];
      RunRefines(order, layout, readOnly, earlier, bytes);
      var before := RunBytes(order, layout, readOnly, earlier, bytes).0;
      AccessPicture(order, layout, readOnly, last, before);
    }
  }

  lemma {:induction false} ReadOnlyAccess(order: Order, m: Member, request: Request, void: bool, bytes: seq<Byte>)
    requires InRecord(m, |bytes|) && Suits(m, request)
    ensures Access(order, m, true, request, void, bytes).0 == bytes
  {
    AccessRefines(order, m, true, request, void, bytes);
  }

  /** A read-only record never changes, whatever is asked of members of whatever kind. */
  lemma {:induction false} ReadOnlyNeverChanges(order: Order, layout: Layout, steps: seq<Step>, bytes: seq<Byte>)
    requires Proper(layout, true, steps) && forall i :: 0 <= i < |layout| ==> InRecord(layout[i], |bytes|)
    ensures RunBytes(order, layout, true, steps, bytes).0 == bytes
  {
    if steps != [] {
      var earlier := steps[..|steps| - 1];
      var last := steps[|steps| - 1];
      ReadOnlyNeverChanges(order, layout, earlier, bytes);
      ReadOnlyAccess(order, layout[last.member], last.request, last.void, bytes);
    }
  }

  // ---- The accessors themselves ----

  lemma {:induction false} SetElementEffect(order: Order, m: Member, bytes: seq<Byte>, i: nat, value: int)
    requires InRecord(m, |bytes|) && i < m.count && InRange(m.t, value)
    ensures var after := Overwrite(order, bytes, m.offset, m.t, Contents(order, m, bytes)[i := value]);
            && Contents(order, m, after) == Contents(order, m, bytes)[i := value]
            && SameOutside(m.offset, Footprint(m), bytes, after)
  {
    ViewInRange(order, bytes, m.offset, m.t, m.count);
    ViewOfOverwrite(order, bytes, m.offset, m.t, Contents(order, m, bytes)[i := value]);
    OverwriteOutside(order, bytes, m.offset, m.t, Contents(order, m, bytes)[i := value]);
  }

  /** The member shows the first n elements of `target`, and no byte outside it has changed. */
  ghost predicate AssignedSoFar(order: Order, m: Member, before: seq<Byte>, bytes: seq<Byte>, target: seq<int>, n: nat)
    requires InRecord(m, |bytes|) && n <= |target| == m.count
  {
    Contents(order, m, bytes)[..n] == target[..n] && SameOutside(m.offset, Footprint(m), before, bytes)
  }

  lemma {:induction false} AssignedNext(order: Order, m: Member, before: seq<Byte>, bytes: seq<Byte>, target: seq<int>,
                                        i: nat)
    requires InRecord(m, |bytes|) && i < |target| == m.count && InRange(m.t, target[i])
    requires AssignedSoFar(order, m, before, bytes, target, i)
    ensures var after := Overwrite(order, bytes, m.offset, m.t, Contents(order, m, bytes)[i := target[i]]);
            AssignedSoFar(order, m, before, after, target, i + 1)
  {
    SetElementEffect(order, m, bytes, i, target[i]);
    var shown := NextShown(Contents(order, m, bytes), target, i);
  }

  /** The Perl scalar that is a record, with the memory it lies in, and its read-only flag. */
  class RecordBuffer {
    const order: Order
    const data: array<Byte>
    const readOnly: bool

    constructor (order: Order, data: array<Byte>, readOnly: bool)
      ensures this.order == order && this.data == data && this.readOnly == readOnly
    {
      this.order := order;
      this.data := data;
      this.readOnly := readOnly;
    }

    /** ptr2[i] = value. */
    method SetElement(m: Member, i: nat, value: int)
      requires InRecord(m, data.Length) && i < m.count && InRange(m.t, value)
      modifies data
      ensures data[..] == Overwrite(order, old(data[..]), m.offset, m.t, Contents(order, m, old(data[..]))[i := value])
    {
      Stride(i, m.count, m.t.bytes);
      ghost var before := data[..];
      Poke(data, m.offset + Span(i, m.t.bytes), StoreInt(order, m.t, value));
      PokedElement(order, before, data[..], m.offset, m.t, m.count, i, value, m.offset + Span(i, m.t.bytes));
      CastFacts(m.t, value);
      FixedByView(order, before, data[..], m.offset, m.t, Contents(order, m, before)[i := value]);
    }

    /** ptr2[i]. */
    method GetElement(m: Member, i: nat) returns (value: int)
      requires InRecord(m, data.Length) && i < m.count
      ensures value == Contents(order, m, data[..])[i]
    {
      Stride(i, m.count, m.t.bytes);
      var at := m.offset + Span(i, m.t.bytes);
      value := LoadInt(order, m.t, data[at..at + m.t.bytes]);
      assert data[..][at..at + m.t.bytes] == data[at..at + m.t.bytes];
    }

    /** ffi_pl_record_accessor_<type> for integers and floats, and the same body with NULL shown as
        undef for pointers and read-write strings; a string's block is RecordString's business. */
    method Scalar(m: Member, request: Request, void: bool) returns (reply: Reply)
      requires InRecord(m, data.Length) && !m.isArray && !m.kind.FixedString? && !m.kind.StringRo? && Suits(m, request)
      modifies data
      ensures (data[..], reply) == Access(order, m, readOnly, request, void, old(data[..]))
    {
      OverwriteOfView(order, data[..], m.offset, m.t, m.count);
      if request.Put? {
        if readOnly {
          return Croak(RecordReadOnly);
        }
        StoredInRange(m, request.value);
        SetElement(m, 0, Stored(m, request.value));
        AccessRefines(order, m, readOnly, request, void, old(data[..]));
      }
      if void {
        return Empty;
      }
      var value := GetElement(m, 0);
      reply := Returned(Shown(m, value));
    }

    /** ffi_pl_record_accessor_string_ro. */
    method StringRo(m: Member, request: Request, void: bool) returns (reply: Reply)
      requires InRecord(m, data.Length) && m.kind.StringRo? && Suits(m, request)
      ensures (data[..], reply) == Access(order, m, readOnly, request, void, data[..])
    {
      StringRoReply(order, m, readOnly, request, void, data[..]);
      if !request.Get? {
        return Croak(MemberReadOnly);
      }
      if void {
        return Empty;
      }
      var value := GetElement(m, 0);
      reply := if value != 0 then Value(At(value)) else Empty;
    }

    /** The assignment loop over an array reference. */
    method AssignAll(m: Member, list: seq<PerlValue>)
      requires InRecord(m, data.Length) && m.isArray && Suits(m, PutAll(list))
      modifies data
      ensures data[..] == Overwrite(order, old(data[..]), m.offset, m.t, Assigned(m, list, m.count))
    {
      ghost var before, target := data[..], Assigned(m, list, m.count);
      var i := 0;
      while i < m.count
        invariant 0 <= i <= m.count && AssignedSoFar(order, m, before, data[..], target, i)
      {
        AssignOne(m, list, i, before, target);
        i := i + 1;
      }
      assert Contents(order, m, data[..]) == target;
      FixedByView(order, before, data[..], m.offset, m.t, target);
    }

    /** Its body for element i: zero where the list is too short or has undef. */
    method AssignOne(m: Member, list: seq<PerlValue>, i: nat, ghost before: seq<Byte>, ghost target: seq<int>)
      requires InRecord(m, data.Length) && m.isArray && Suits(m, PutAll(list)) && i < m.count
      requires target == Assigned(m, list, m.count) && AssignedSoFar(order, m, before, data[..], target, i)
      modifies data
      ensures AssignedSoFar(order, m, before, data[..], target, i + 1)
    {
      var value := if i < |list| && list[i] != Nil then Stored(m, list[i]) else 0;
      StoredInRange(m, if i < |list| then list[i] else Nil);
      AssignedNext(order, m, before, data[..], target, i);
      SetElement(m, i, value);
    }

    /** The loop that builds the returned list. */
    method ReadAll(m: Member) returns (list: seq<PerlValue>)
      requires InRecord(m, data.Length)
      ensures list == ShownAll(m, Contents(order, m, data[..]))
    {
      list := [];
      ghost var all := Contents(order, m, data[..]);
      var i := 0;
      while i < m.count
        invariant 0 <= i <= m.count
        invariant list == ShownAll(m, all[..i])
      {
        var value := GetElement(m, i);
        ShownNext(m, all, i);
        list := list + [Shown(m, value)];
        i := i + 1;
      }
      assert all[..i] == all;
    }

    /** ptr2[i] = value for an index that may be out of range, where it only warns. */
    method SetAt(m: Member, index: int, value: PerlValue)
      requires InRecord(m, data.Length) && m.isArray && Suits(m, PutAt(index, value))
      modifies data
      ensures data[..] ==
              Overwrite(order, old(data[..]), m.offset, m.t,
                  AfterPut(m, PutAt(index, value), Contents(order, m, old(data[..]))))
    {
      OverwriteOfView(order, data[..], m.offset, m.t, m.count);
      if index >= 0 && index < m.count {
        StoredInRange(m, value);
        SetElement(m, index, Stored(m, value));
      }
    }

    /** What the array accessors do once they have not refused and nothing was asked by index. */
    method StoreAndList(m: Member, request: Request, void: bool) returns (reply: Reply)
      requires InRecord(m, data.Length) && m.isArray && Suits(m, request) && !request.GetAt?
      requires !readOnly || request.Get?
      modifies data
      ensures (data[..], reply) == Access(order, m, readOnly, request, void, old(data[..]))
    {
      OverwriteOfView(order, data[..], m.offset, m.t, m.count);
      AccessRefines(order, m, readOnly, request, void, data[..]);
      match request {
        case PutAt(index, value) => SetAt(m, index, value);
        case PutAll(list) => AssignAll(m, list);
        case _ =>
      }
      if void {
        return Empty;
      }
      var list := ReadAll(m);
      reply := List(list);
    }

    /** The answer to any request by which a read-only array refuses; true if it does refuse. */
    method Refuses(m: Member, request: Request, void: bool) returns (refused: bool)
      requires InRecord(m, data.Length) && m.isArray && !m.kind.StringRo? && Suits(m, request)
      ensures refused <==> readOnly && !request.Get?
      ensures refused ==> (data[..], Croak(RecordReadOnly)) == Access(order, m, readOnly, request, void, data[..])
    {
      OverwriteOfView(order, data[..], m.offset, m.t, m.count);
      refused := readOnly && !request.Get?;
    }

    /** ffi_pl_record_accessor_<type>_array. */
    method Array(m: Member, request: Request, void: bool) returns (reply: Reply)
      requires InRecord(m, data.Length) && m.isArray && (m.kind.Integer? || m.kind.Floating?) &&
               Suits(m, Asked(request))
      modifies data
      ensures (data[..], reply) == Access(order, m, readOnly, Asked(request), void, old(data[..]))
    {
      var asked := Asked(request);
      var refused := Refuses(m, asked, void);
      if refused {
        return Croak(RecordReadOnly);
      }
      if asked.GetAt? {
        reply := ElementAt(m, asked.index, void);
      } else {
        reply := StoreAndList(m, asked, void);
      }
    }

    /** One element of an integer or float array. */
    method ElementAt(m: Member, i: int, void: bool) returns (reply: Reply)
      requires InRecord(m, data.Length) && m.isArray && (m.kind.Integer? || m.kind.Floating?) && !readOnly
      ensures (data[..], reply) == Access(order, m, readOnly, GetAt(i), void, data[..])
    {
      if i >= 0 && i < m.count {
        IndexedReply(order, m, readOnly, i, void, data[..]);
        var value := GetElement(m, i);
        reply := Value(Shown(m, value));
      } else {
        IndexOutside(order, m, i, void, data[..]);
        reply := Empty;
      }
    }

    /** ffi_pl_record_accessor_opaque_array. */
    method OpaqueArray(m: Member, request: Request, void: bool) returns (reply: Reply)
      requires InRecord(m, data.Length) && m.isArray && m.kind.Opaque? && Suits(m, Asked(request))
      requires Reachable(m, readOnly, Asked(request), data.Length)
      modifies data
      ensures (data[..], reply) == Access(order, m, readOnly, Asked(request), void, old(data[..]))
    {
      var asked := Asked(request);
      var refused := Refuses(m, asked, void);
      if refused {
        return Croak(RecordReadOnly);
      }
      if asked.GetAt? {
        reply := PointerAt(m, asked.index, void);
      } else {
        reply := StoreAndList(m, asked, void);
      }
    }

    /** One element of a pointer array, or whatever lies where it would be: the guard is the source's own. */
    method PointerAt(m: Member, i: int, void: bool) returns (reply: Reply)
      requires InRecord(m, data.Length) && m.isArray && m.kind.Opaque? && !readOnly
      requires Reachable(m, readOnly, GetAt(i), data.Length)
      ensures (data[..], reply) == Access(order, m, readOnly, GetAt(i), void, data[..])
    {
      if i < 0 && i >= m.count {
        return Empty;
      }
      PlaceInMemory(m, i, data.Length);
      var at := m.offset + 8 * i;
      var address := LoadInt(order, ADDRESS, data[at..at + 8]);
      assert data[..][at..at + 8] == data[at..at + 8];
      PointerReply(order, m, i, at, address, void, data[..]);
      reply := if address == 0 then Empty else Value(Whole(address));
    }

    /** ffi_pl_record_accessor_string_fixed. */
    method FixedString(m: Member, request: Request, void: bool) returns (reply: Reply)
      requires InRecord(m, data.Length) && m.kind.FixedString? && Suits(m, request)
      modifies data
      ensures (data[..], reply) == Access(order, m, readOnly, request, void, old(data[..]))
    {
      ghost var before := data[..];
      FixedSize(m, data.Length);
      var value := if request.Put? then Some(if request.value.Text? then Some(request.value.bytes) else None) else None;
      var answer := RecordString.AccessFixed(data, readOnly, m.offset, m.count, value, void);
      reply := FromText(answer);
      FixedOutcome(order, m, readOnly, request, void, before, data[..], reply);
    }
  }

  function FromText(answer: RecordString.Reply): Reply {
    match answer
    case Croak(error) => Croak(error)
    case Empty => Empty
    case Text(bytes) => Value(Text(bytes))
  }

  lemma {:induction false} FixedSize(m: Member, size: nat)
    requires InRecord(m, size) && m.kind.FixedString?
    ensures m.offset + m.count <= size && Footprint(m) == m.count
  {
    SpanIsProduct(m.count, 1);
  }

  lemma {:induction false} StringRoReply(order: Order, m: Member, readOnly: bool, request: Request, void: bool,
                                         bytes: seq<Byte>)
    requires InRecord(m, |bytes|) && m.kind.StringRo? && Suits(m, request)
    ensures var pointer := Contents(order, m, bytes)[0];
            Access(order, m, readOnly, request, void, bytes) ==
            (bytes, if !request.Get? then Croak(MemberReadOnly)
                    else if void || pointer == 0 then Empty else Value(At(pointer)))
  {
    AccessRefines(order, m, readOnly, request, void, bytes);
    StringRoList(m, readOnly, request, void, Contents(order, m, bytes));
  }

  lemma {:induction false} StringRoList(m: Member, readOnly: bool, request: Request, void: bool, list: seq<int>)
    requires m.kind.StringRo? && KindFits(m) && Suits(m, request) && |list| == m.count
    ensures ListAccess(m, readOnly, request, void, list) ==
            (list, if !request.Get? then Croak(MemberReadOnly)
                   else if void || list[0] == 0 then Empty else Value(At(list[0])))
  {
  }

  lemma {:induction false} PlaceInMemory(m: Member, i: int, size: nat)
    requires InRecord(m, size) && m.kind.Opaque? && m.isArray && Reachable(m, false, GetAt(i), size)
    ensures 0 <= m.offset + 8 * i && m.offset + 8 * i + 8 <= size
  {
    if 0 <= i < m.count {
      SpanIsProduct(i, 8);
      Stride(i, m.count, 8);
    }
  }

  /** An index in range leads to the element it names, any other to what lies there. */
  lemma {:induction false} PointerReply(order: Order, m: Member, i: int, at: int, address: int, void: bool,
                                        bytes: seq<Byte>)
    requires InRecord(m, |bytes|) && m.kind.Opaque? && m.isArray && Reachable(m, false, GetAt(i), |bytes|)
    requires 0 <= at && at + 8 <= |bytes| && at == ReadAt(m, i)
    requires address == LoadInt(order, ADDRESS, bytes[at..at + 8])
    ensures Access(order, m, false, GetAt(i), void, bytes) ==
            (bytes, if address == 0 then Empty else Value(Whole(address)))
  {
    if 0 <= i < m.count {
      PointerElement(order, m, i, at, bytes);
      PointerInside(order, m, i, address, void, bytes);
    } else {
      PointerOutside(order, m, i, address, void, bytes);
    }
  }

  lemma {:induction false} PointerElement(order: Order, m: Member, i: nat, at: nat, bytes: seq<Byte>)
    requires InRecord(m, |bytes|) && m.kind.Opaque? && i < m.count && at == ReadAt(m, i) && at + 8 <= |bytes|
    ensures Element(order, bytes, m.offset, m.t, m.count, i) == LoadInt(order, ADDRESS, bytes[at..at + 8])
  {
    SpanIsProduct(i, 8);
    assert m.t == ADDRESS;
    ElementIs(order, bytes, m.offset, ADDRESS, m.count, i, at, bytes[at..at + 8]);
  }

  lemma {:induction false} PointerOutside(order: Order, m: Member, i: int, address: int, void: bool, bytes: seq<Byte>)
    requires InRecord(m, |bytes|) && m.kind.Opaque? && m.isArray && !(0 <= i < m.count)
    requires Reachable(m, false, GetAt(i), |bytes|) && address == ReadBeyond(order, m, i, bytes)
    ensures Access(order, m, false, GetAt(i), void, bytes) ==
            (bytes, if address == 0 then Empty else Value(Whole(address)))
  {
  }

  lemma {:induction false} PointerInside(order: Order, m: Member, i: nat, address: int, void: bool, bytes: seq<Byte>)
    requires InRecord(m, |bytes|) && m.kind.Opaque? && m.isArray && i < m.count
    requires address == Element(order, bytes, m.offset, m.t, m.count, i)
    ensures Access(order, m, false, GetAt(i), void, bytes) ==
            (bytes, if address == 0 then Empty else Value(Whole(address)))
  {
    IndexedReply(order, m, false, i, void, bytes);
  }

  /** A fixed string's contents are its bytes. */
  lemma {:induction false} FixedContents(order: Order, m: Member, bytes: seq<Byte>)
    requires InRecord(m, |bytes|) && m.kind.FixedString?
    ensures m.offset + m.count <= |bytes| && Footprint(m) == m.count
    ensures Bytes(Contents(order, m, bytes)) == bytes[m.offset..m.offset + m.count]
    ensures Contents(order, m, bytes) == bytes[m.offset..m.offset + m.count]
  {
    SpanIsProduct(m.count, 1);
    forall i | 0 <= i < m.count
      ensures Contents(order, m, bytes)[i] == bytes[m.offset + i]
    {
      var at := m.offset + i;
      SpanIsProduct(i, 1);
      ElementIs(order, bytes, m.offset, m.t, m.count, i, at, bytes[at..at + 1]);
      OneByte(order, bytes[at..at + 1]);
    }
  }

  lemma {:induction false} OneByte(order: Order, bytes: seq<Byte>)
    requires |bytes| == 1
    ensures LoadInt(order, IntType(1, false), bytes) == bytes[0]
    ensures StoreInt(order, IntType(1, false), bytes[0]) == bytes
  {
    assert Pow256(1) == 256 * Pow256(0);
    LoadStore(order, IntType(1, false), bytes);
    assert Word(order, bytes) == bytes[0] by {
      assert Reverse(bytes) == bytes;
      assert Low(bytes) == bytes[0] + 256 * Low(bytes[1..]);
    }
    CastFacts(IntType(1, false), bytes[0]);
  }

  lemma {:induction false} FixedLaid(order: Order, m: Member, text: seq<Byte>, before: seq<Byte>, after: seq<Byte>)
    requires InRecord(m, |before|) && m.kind.FixedString? && |after| == |before|
    requires FixedPut(m, text, before, after)
    ensures after == Overwrite(order, before, m.offset, m.t, Laid(text, Contents(order, m, before)))
  {
    FixedContents(order, m, before);
    FixedContents(order, m, after);
    LaidBytes(m.offset, m.count, text, before, after);
    FixedByView(order, before, after, m.offset, m.t, Laid(text, Contents(order, m, before)));
  }

  ghost predicate FixedPut(m: Member, text: seq<Byte>, before: seq<Byte>, after: seq<Byte>) {
    PutText(m.offset, m.count, text, before, after)
  }

  /** At most `count` bytes of the text are laid over the bytes at `offset`. */
  ghost predicate PutText(offset: nat, count: nat, text: seq<Byte>, before: seq<Byte>, after: seq<Byte>) {
    var kept := if |text| > count then count else |text|;
    offset + count <= |before| && after == before[..offset] + text[..kept] + before[offset + kept..]
  }

  lemma {:induction false} LaidBytes(offset: nat, count: nat, text: seq<Byte>, before: seq<Byte>, after: seq<Byte>)
    requires PutText(offset, count, text, before, after)
    ensures |after| == |before|
    ensures after[offset..offset + count] == Laid(text, before[offset..offset + count])
    ensures SameOutside(offset, count, before, after)
  {
  }

  /** What the string code does to the bytes is what the picture says. */
  lemma {:induction false} FixedAccess(order: Order, m: Member, readOnly: bool, request: Request, void: bool,
                                       before: seq<Byte>, after: seq<Byte>)
    requires InRecord(m, |before|) && m.kind.FixedString? && Suits(m, request) && |after| == |before|
    requires if request.Put? && !readOnly && request.value.Text? then FixedPut(m, request.value.bytes, before, after)
             else after == before
    ensures after == Access(order, m, readOnly, request, void, before).0
  {
    OverwriteOfView(order, before, m.offset, m.t, m.count);
    if request.Put? && !readOnly && request.value.Text? {
      FixedLaid(order, m, request.value.bytes, before, after);
    }
  }

  lemma {:induction false} FixedReply(order: Order, m: Member, readOnly: bool, request: Request, void: bool,
                                      before: seq<Byte>, after: seq<Byte>)
    requires InRecord(m, |before|) && m.kind.FixedString? && Suits(m, request)
    requires after == Access(order, m, readOnly, request, void, before).0
    ensures m.offset + m.count <= |after|
    ensures Access(order, m, readOnly, request, void, before).1 ==
            if request.Put? && readOnly then Croak(RecordReadOnly)
            else if request.Put? && request.value.Nil? then Croak(UndefFixed)
            else if void then Empty
            else Value(Text(after[m.offset..m.offset + m.count]))
  {
    AccessRefines(order, m, readOnly, request, void, before);
    FixedList(m, readOnly, request, void, Contents(order, m, before));
    FixedContents(order, m, after);
  }

  /** Assigning a fixed string of a writable record: undef is refused and changes nothing, a text is cut to the
      member's size and laid over what was there, and what is there then is returned. */
  lemma {:induction false} AssignedText(order: Order, m: Member, v: PerlValue, void: bool, bytes: seq<Byte>)
    requires InRecord(m, |bytes|) && m.kind.FixedString? && (v.Nil? || v.Text?)
    ensures m.offset + m.count <= |bytes|
    ensures var (after, reply) := Access(order, m, false, Put(v), void, bytes);
            if v.Nil? then after == bytes && reply == Croak(UndefFixed)
            else FixedPut(m, v.bytes, bytes, after) &&
                 reply == if void then Empty else Value(Text(after[m.offset..m.offset + m.count]))
  {
    FixedSize(m, |bytes|);
    var after := bytes;
    if v.Text? {
      var kept := if |v.bytes| > m.count then m.count else |v.bytes|;
      after := bytes[..m.offset] + v.bytes[..kept] + bytes[m.offset + kept..];
    }
    FixedAccess(order, m, false, Put(v), void, bytes, after);
    FixedReply(order, m, false, Put(v), void, bytes, after);
  }

  lemma {:induction false} FixedOutcome(order: Order, m: Member, readOnly: bool, request: Request, void: bool,
                                        before: seq<Byte>, after: seq<Byte>, reply: Reply)
    requires InRecord(m, |before|) && m.kind.FixedString? && Suits(m, request) && |after| == |before|
    requires if request.Put? && !readOnly && request.value.Text? then FixedPut(m, request.value.bytes, before, after)
             else after == before
    requires m.offset + m.count <= |after|
    requires reply == if request.Put? && readOnly then Croak(RecordReadOnly)
                      else if request.Put? && request.value.Nil? then Croak(UndefFixed)
                      else if void then Empty
                      else Value(Text(after[m.offset..m.offset + m.count]))
    ensures (after, reply) == Access(order, m, readOnly, request, void, before)
  {
    FixedAccess(order, m, readOnly, request, void, before, after);
    FixedReply(order, m, readOnly, request, void, before, after);
  }

  lemma {:induction false} FixedList(m: Member, readOnly: bool, request: Request, void: bool, list: seq<int>)
    requires m.kind.FixedString? && KindFits(m) && Suits(m, request) && |list| == m.count
    ensures var (after, reply) := ListAccess(m, readOnly, request, void, list);
            reply == if request.Put? && readOnly then Croak(RecordReadOnly)
                     else if request.Put? && request.value.Nil? then Croak(UndefFixed)
                     else if void then Empty
                     else Value(Text(Bytes(after)))
  {
  }
}
