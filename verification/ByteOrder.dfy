/** Narrow integers in a wide result slot: which bytes of the slot a closure writes
    (xs/closure.c) and which ones a call reads (include/ffi_platypus_call.h), on little-endian
    machines and on big-endian ones with 4- or 8-byte slots. */
module ByteOrder {
  import opened Words

  /** The three ways the sources are compiled; the slot is as wide as libffi's ffi_arg. */
  datatype Machine = Little(width: nat) | Big32 | Big64

  function OrderOf(m: Machine): Order {
    if m.Little? then LittleEndian else BigEndian
  }

  /** Bytes in the result slot of a type of w bytes: at least a register wide. */
  function SlotWidth(m: Machine, w: nat): nat {
    var width := match m case Little(n) => n case Big32 => 4 case Big64 => 8;
    if w > width then w else width
  }

  predicate IsWidth(w: nat) {
    w == 1 || w == 2 || w == 4 || w == 8
  }

  /** Element index of the view a closure stores through, as spelled out per type and machine. */
  function ClosureIndex(m: Machine, w: nat): nat {
    match m
    case Little(_) => 0
    case Big32 => if w == 1 then 3 else if w == 2 then 1 else 0
    case Big64 => if w == 1 then 7 else if w == 2 then 3 else if w == 4 then 1 else 0
  }

  /** Element index of the union member the call reads. */
  function ResultIndex(m: Machine, w: nat): nat {
    if w == 8 then 0
    else if w == 4 then if m == Big64 then 1 else 0
    else if w == 2 then if m == Big32 then 1 else if m == Big64 then 3 else 0
    else if m == Big32 then 3 else if m == Big64 then 7 else 0
  }

  /** Where the low-order w bytes of a slot begin. */
  function LowOrderAt(m: Machine, w: nat): nat
    requires IsWidth(w)
  {
    if m.Little? then 0 else SlotWidth(m, w) - w
  }

  lemma {:induction false} IndicesAgree(m: Machine, w: nat)
    requires IsWidth(w)
    ensures ClosureIndex(m, w) == ResultIndex(m, w)
    ensures ClosureIndex(m, w) * w == LowOrderAt(m, w)
    ensures !m.Little? ==> ClosureIndex(m, w) == SlotWidth(m, w) / w - 1
    ensures LowOrderAt(m, w) + w <= SlotWidth(m, w)
  {
  }

  /** The last w bytes of a big-endian word, or the first w of a little-endian one, are the word
      cut to w bytes. */
  lemma {:induction false} LowOrderBytes(order: Order, slot: seq<Byte>, w: nat)
    requires w <= |slot|
    ensures Word(order, if order == LittleEndian then slot[..w] else slot[|slot| - w..]) ==
            Residue(Word(order, slot), w)
  {
    var bytes := if order == LittleEndian then slot else Reverse(slot);
    LowPrefix(bytes, w);
    if order == BigEndian {
      assert Reverse(slot[|slot| - w..]) == bytes[..w];
    }
  }

  /** The closure's store through its view, and the call's load through the union. */
  function ClosureWrite(m: Machine, slot: seq<Byte>, t: IntType, x: int): (r: seq<Byte>)
    requires IsWidth(t.bytes) && |slot| == SlotWidth(m, t.bytes)
    ensures |r| == |slot|
  {
    IndicesAgree(m, t.bytes);
    var at := ClosureIndex(m, t.bytes) * t.bytes;
    slot[..at] + StoreInt(OrderOf(m), t, FromPerl(t, x)) + slot[at + t.bytes..]
  }

  function ResultRead(m: Machine, slot: seq<Byte>, t: IntType): int
    requires IsWidth(t.bytes) && |slot| == SlotWidth(m, t.bytes)
  {
    IndicesAgree(m, t.bytes);
    var at := ResultIndex(m, t.bytes) * t.bytes;
    LoadInt(OrderOf(m), t, slot[at..at + t.bytes])
  }

  /** A value a closure returns is the value a call reads from the same slot, modulo 2^n with the
      signedness of the type, on every machine and whatever else was in the slot. */
  lemma {:induction false} ClosureReturnReachesCall(m: Machine, slot: seq<Byte>, t: IntType, x: int)
    requires IsWidth(t.bytes) && |slot| == SlotWidth(m, t.bytes)
    ensures ResultRead(m, ClosureWrite(m, slot, t, x), t) == Cast(t, x)
    ensures InRange(t, x) ==> ResultRead(m, ClosureWrite(m, slot, t, x), t) == x
  {
    WriteThenRead(m, slot, t, x);
    StoreLoad(OrderOf(m), t, FromPerl(t, x));
    FromPerlIsCast(t, x);
    CastFacts(t, x);
    CastFacts(t, Cast(t, x));
  }

  /** The call looks where the closure wrote. */
  lemma {:induction false} WriteThenRead(m: Machine, slot: seq<Byte>, t: IntType, x: int)
    requires IsWidth(t.bytes) && |slot| == SlotWidth(m, t.bytes)
    ensures ResultRead(m, ClosureWrite(m, slot, t, x), t) ==
            LoadInt(OrderOf(m), t, StoreInt(OrderOf(m), t, FromPerl(t, x)))
  {
    IndicesAgree(m, t.bytes);
    Middle(slot, ClosureIndex(m, t.bytes) * t.bytes, StoreInt(OrderOf(m), t, FromPerl(t, x)));
  }

  lemma {:induction false} Middle(slot: seq<Byte>, at: nat, image: seq<Byte>)
    requires at + |image| <= |slot|
    ensures (slot[..at] + image + slot[at + |image|..])[at..at + |image|] == image
  {
  }

  /** A C function's narrow result, which libffi leaves widened to the whole slot, is read modulo
      2^n of the slot's word. */
  lemma {:induction false} CallReadsLowOrder(m: Machine, slot: seq<Byte>, t: IntType)
    requires IsWidth(t.bytes) && |slot| == SlotWidth(m, t.bytes)
    ensures ResultRead(m, slot, t) == Cast(t, Word(OrderOf(m), slot))
  {
    IndicesAgree(m, t.bytes);
    LowOrderBytes(OrderOf(m), slot, t.bytes);
    var at := ResultIndex(m, t.bytes) * t.bytes;
    var low := if OrderOf(m) == LittleEndian then slot[..t.bytes] else slot[|slot| - t.bytes..];
    assert slot[at..at + t.bytes] == low;
    CastOfResidue(t, Word(OrderOf(m), slot));
    assert ResultRead(m, slot, t) == Cast(t, Word(OrderOf(m), low));
  }

  /** The return switch for object types reads an unsigned 16-bit value through the signed view on
      4-byte big-endian machines; every other case is the plain one. */
  function ObjectRead(m: Machine, slot: seq<Byte>, t: IntType): int
    requires IsWidth(t.bytes) && |slot| == SlotWidth(m, t.bytes)
  {
    ResultRead(m, slot, if m == Big32 && t == IntType(2, false) then IntType(2, true) else t)
  }

  /** So an object's value is read as a plain one would be, except there from 0x8000 up. */
  lemma {:induction false} ObjectReadAgrees(m: Machine, slot: seq<Byte>, t: IntType)
    requires IsWidth(t.bytes) && |slot| == SlotWidth(m, t.bytes)
    ensures ObjectRead(m, slot, t) == ResultRead(m, slot, t) <==>
            !(m == Big32 && t == IntType(2, false) && ResultRead(m, slot, t) >= 0x8000)
  {
    assert Pow256(2) == 256 * Pow256(1) && Pow256(1) == 256 * Pow256(0);
  }
}
