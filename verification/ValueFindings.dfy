/** Concrete values on which the plain promises fail; the exact conditions are CopyOutInBounds,
    IndexReadNeedsWritable, IndexedReadEscapes and ObjectReadAgrees. */
module ValueFindings {
  import opened Words
  import opened IntegerTypes
  import opened Views
  import opened Errors
  import ArrayMarshal
  import ByteOrder
  import opened Record

  /** A variable-length array of 4-byte integers that grows from one element to two during the call:
      the copy-out reads eight bytes of a block of four. */
  lemma {:induction false} GrownListOverruns()
    ensures Span(ArrayMarshal.Count(0, 1), 4) == 4 && Span(ArrayMarshal.Count(0, 2), 4) == 8
  {
  }

  /** A read-only record with an array of one byte, asked for its element 0, dies. */
  lemma {:induction false} ReadOnlyElementDies(order: Order, bytes: seq<Byte>)
    requires |bytes| == 1
    ensures var m := Member(0, 1, IntType(1, false), Integer, true);
            && Access(order, m, true, GetAt(0), false, bytes).1 == Croak(RecordReadOnly)
            && Access(order, m, false, GetAt(0), false, bytes).1 != Croak(RecordReadOnly)
  {
    var m := Member(0, 1, IntType(1, false), Integer, true);
    IndexedReply(order, m, true, 0, false, bytes);
    IndexedReply(order, m, false, 0, false, bytes);
  }

  /** An array of one pointer, asked for its element 1, gives what lies behind it: two memories that
      agree on the member's eight bytes give different answers. */
  lemma {:induction false} IndexCountEscapes(order: Order, bytes: seq<Byte>)
    requires |bytes| == 16
    ensures var m := Member(0, 1, ADDRESS, Opaque, true);
            && Access(order, m, false, GetAt(1), false, WithAddress(order, bytes, 8, 1)).1 == Value(Whole(1))
            && Access(order, m, false, GetAt(1), false, WithAddress(order, bytes, 8, 2)).1 == Value(Whole(2))
  {
    var m := Member(0, 1, ADDRESS, Opaque, true);
    SmallAddresses();
    AddressRead(order, m, 1, bytes, 1);
    AddressRead(order, m, 1, bytes, 2);
  }

  /** A uint16 object whose value is 0x8000, on a 4-byte big-endian machine, reads as -0x8000. */
  lemma {:induction false} ObjectReadsNegative()
    ensures ByteOrder.ResultRead(ByteOrder.Big32, [0, 0, 0x80, 0], IntType(2, false)) == 0x8000
    ensures ByteOrder.ObjectRead(ByteOrder.Big32, [0, 0, 0x80, 0], IntType(2, false)) == -0x8000
  {
    var slot: seq<Byte> := [0, 0, 0x80, 0];
    assert slot[2..4] == [0x80, 0];
    assert Reverse([0x80, 0]) == [0, 0x80];
    assert Low([0x80]) == 0x80 + 256 * Low([]) && [0, 0x80][1..] == [0x80];
    assert Word(BigEndian, [0x80, 0]) == 0x8000;
    assert Pow256(1) == 256 && Pow256(2) == 0x1_0000;
    WordOfImage(BigEndian, 0x8000, 2);
    ResidueIsModulo(0x8000, 2);
  }
}
