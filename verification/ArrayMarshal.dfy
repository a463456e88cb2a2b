/** Integer array arguments: a Perl list is copied into a native block before the foreign call and
    copied back from whatever the callee left there (include/ffi_platypus_call.h). */
module ArrayMarshal {
  import opened TypeCodes
  import opened Words
  import opened Views

  /** Elements transferred: the declared count, or for variable arrays (and array references
      passed to a pointer type) the length the Perl list has at that moment. */
  function Count(elementCount: nat, length: nat): nat {
    if elementCount == 0 then length else elementCount
  }

  /** av_fetch(av, n, 1) for every n below count: missing elements come into being as undef. */
  function Extended(items: seq<PerlInt>, count: nat): (r: seq<PerlInt>)
    ensures |r| == if |items| < count then count else |items|
    ensures forall i :: 0 <= i < |r| ==> r[i] == if i < |items| then items[i] else Undef
  {
    if |items| < count then items + seq(count - |items|, _ => Undef) else items
  }

  /** What the callee finds at element i. */
  function Passed(t: IntType, items: seq<PerlInt>, count: nat): (r: seq<int>)
    ensures |r| == count
  {
    seq(count, i => if 0 <= i < |items| then ToC(t, items[i]) else ToC(t, Undef))
  }

  function Ints(list: seq<int>): (r: seq<PerlInt>)
    ensures |r| == |list| && forall i :: 0 <= i < |r| ==> r[i] == Int(list[i])
  {
    seq(|list|, i requires 0 <= i < |list| => Int(list[i]))
  }

  /** The callee sees each element modulo 2^n with its signedness, and zeros for undefined or
      missing ones; values of the type arrive unmolested. */
  lemma {:induction false} PassedModulo(t: IntType, items: seq<PerlInt>, count: nat, i: nat)
    requires 0 < t.bytes <= 8 && i < count
    ensures var x := if i < |items| && items[i].Int? then items[i].value else 0;
            && Passed(t, items, count)[i] % Modulus(t) == x % Modulus(t)
            && InRange(t, Passed(t, items, count)[i])
            && (InRange(t, x) ==> Passed(t, items, count)[i] == x)
  {
    ToCInRange(t, if i < |items| then items[i] else Undef);
    CastFacts(t, if i < |items| && items[i].Int? then items[i].value else 0);
  }

  /** A Perl array. */
  class PerlArray {
    var items: seq<PerlInt>

    constructor (items: seq<PerlInt>)
      ensures this.items == items
    {
      this.items := items;
    }

    /** av_fetch(av, n, 1). */
    method Fetch(n: nat) returns (value: PerlInt)
      modifies this
      ensures items == Extended(old(items), n + 1) && value == items[n]
    {
      if n >= |items| {
        items := items + seq(n + 1 - |items|, _ => Undef);
      }
      value := items[n];
    }

    /** sv_setuv or sv_setiv on *av_fetch(av, n, 1). */
    method Set(n: nat, value: int)
      modifies this
      ensures items == Extended(old(items), n + 1)[n := Int(value)]
    {
      var _ := Fetch(n);
      items := items[n := Int(value)];
    }
  }

  /** Storage for n elements of w bytes. */
  method Newx(n: nat, w: nat) returns (block: array<Byte>)
    ensures fresh(block) && block.Length == Span(n, w)
  {
    SpanIsProduct(n, w);
    block := new Byte[n * w];
  }

  /** The copy-in loop of the array branch. */
  method CopyIn(order: Order, t: IntType, av: PerlArray, elementCount: nat) returns (block: array<Byte>, count: nat)
    requires 0 < t.bytes <= 8
    modifies av
    ensures fresh(block) && count == Count(elementCount, |old(av.items)|) && block.Length == Span(count, t.bytes)
    ensures View(order, block[..], 0, t, count) == Passed(t, old(av.items), count)
    ensures av.items == Extended(old(av.items), count)
  {
    count := elementCount;
    if count == 0 {
      count := |av.items|;
    }
    block := Newx(count, t.bytes);
    ghost var before, target := av.items, Passed(t, av.items, count);
    ghost var shown := View(order, block[..], 0, t, count);
    var n := 0;
    while n < count
      invariant 0 <= n <= count && block.Length == Span(count, t.bytes)
      invariant av.items == Extended(before, n)
      invariant shown == View(order, block[..], 0, t, count) && shown[..n] == target[..n]
    {
      CopyElement(order, t, av, block, count, n, before);
      shown := NextShown(shown, target, n);
      n := n + 1;
    }
    assert shown == target;
  }

  /** Its body for element n. */
  method CopyElement(order: Order, t: IntType, av: PerlArray, block: array<Byte>, count: nat, n: nat,
                     ghost before: seq<PerlInt>)
    requires 0 < t.bytes <= 8 && n < count && block.Length == Span(count, t.bytes) && av.items == Extended(before, n)
    modifies av, block
    ensures av.items == Extended(before, n + 1)
    ensures View(order, block[..], 0, t, count) ==
            View(order, old(block[..]), 0, t, count)[n := Passed(t, before, count)[n]]
  {
    var value := av.Fetch(n);
    ExtendedTwice(before, n, n + 1);
    ghost var x := ToC(t, value);
    assert x == Passed(t, before, count)[n];
    ToCInRange(t, value);
    CastFacts(t, x);
    StoreElement(order, t, block, count, n, ToC(t, value));
  }

  lemma {:induction false} ExtendedTwice(items: seq<PerlInt>, m: nat, n: nat)
    requires m <= n
    ensures Extended(Extended(items, m), n) == Extended(items, n)
  {
  }

  /** ((T*)block)[n] = x. */
  method StoreElement(order: Order, t: IntType, block: array<Byte>, count: nat, n: nat, x: int)
    requires t.bytes > 0 && n < count && block.Length == Span(count, t.bytes)
    modifies block
    ensures View(order, block[..], 0, t, count) == View(order, old(block[..]), 0, t, count)[n := Cast(t, x)]
  {
    Stride(n, count, t.bytes);
    ghost var was := block[..];
    Poke(block, Span(n, t.bytes), StoreInt(order, t, x));
    PokedElement(order, was, block[..], 0, t, count, n, x, Span(n, t.bytes));
  }

  /** The copy-out loop.  The count is worked out afresh, so the list may not have grown past what
      was copied in. */
  method CopyOut(order: Order, t: IntType, av: PerlArray, elementCount: nat, block: array<Byte>)
    requires t.bytes > 0 && Span(Count(elementCount, |av.items|), t.bytes) <= block.Length
    modifies av
    ensures var count := Count(elementCount, |old(av.items)|);
            av.items == Ints(View(order, block[..], 0, t, count)) + Extended(old(av.items), count)[count..]
  {
    var count := elementCount;
    if count == 0 {
      count := |av.items|;
    }
    CopyBackAll(order, t, av, block, count, block[..], av.items, Ints(View(order, block[..], 0, t, count)));
  }

  /** Its loop.  The ghosts are fixed before it: the bytes of the block, which storing into the list
      does not touch, the list found, and what is written over it. */
  method CopyBackAll(order: Order, t: IntType, av: PerlArray, block: array<Byte>, count: nat,
                     ghost bytes: seq<Byte>, ghost before: seq<PerlInt>, ghost list: seq<PerlInt>)
    requires Fits(0, t, count, |bytes|) && list == Ints(View(order, bytes, 0, t, count))
    requires block[..] == bytes && av.items == before
    modifies av
    ensures av.items == list + Extended(before, count)[count..]
  {
    var n := 0;
    while n < count
      invariant 0 <= n <= count && block[..] == bytes && WrittenBack(av.items, before, list, n)
    {
      CopyBack(order, t, av, block, count, n, bytes, before, list);
      n := n + 1;
    }
    AllWritten(av.items, before, list);
  }

  /** Its body for element n. */
  method CopyBack(order: Order, t: IntType, av: PerlArray, block: array<Byte>, count: nat, n: nat,
                  ghost bytes: seq<Byte>, ghost before: seq<PerlInt>, ghost list: seq<PerlInt>)
    requires n < count && Fits(0, t, count, |bytes|) && list == Ints(View(order, bytes, 0, t, count))
    requires block[..] == bytes && WrittenBack(av.items, before, list, n)
    modifies av
    ensures block[..] == bytes && WrittenBack(av.items, before, list, n + 1)
  {
    var value := LoadElement(order, t, block, count, n);
    NextWritten(av.items, before, list, n);
    av.Set(n, value);
  }

  /** The Perl list with its first n elements written over. */
  ghost predicate WrittenBack(items: seq<PerlInt>, before: seq<PerlInt>, list: seq<PerlInt>, n: nat)
    requires n <= |list|
  {
    && |items| == (if |before| < n then n else |before|)
    && forall i :: 0 <= i < |items| ==> items[i] == if i < n then list[i] else before[i]
  }

  lemma {:induction false} NextWritten(items: seq<PerlInt>, before: seq<PerlInt>, list: seq<PerlInt>, n: nat)
    requires n < |list| && WrittenBack(items, before, list, n)
    ensures WrittenBack(Extended(items, n + 1)[n := list[n]], before, list, n + 1)
  {
  }

  lemma {:induction false} AllWritten(items: seq<PerlInt>, before: seq<PerlInt>, list: seq<PerlInt>)
    requires WrittenBack(items, before, list, |list|)
    ensures items == list + Extended(before, |list|)[|list|..]
  {
  }

  /** ((T*)block)[n]. */
  method LoadElement(order: Order, t: IntType, block: array<Byte>, count: nat, n: nat) returns (value: int)
    requires t.bytes > 0 && n < count && Span(count, t.bytes) <= block.Length
    ensures value == View(order, block[..], 0, t, count)[n]
  {
    Stride(n, count, t.bytes);
    var at := Span(n, t.bytes);
    value := LoadInt(order, t, block[at..at + t.bytes]);
    assert block[at..at + t.bytes] == block[..][at..at + t.bytes];
  }

  /** A whole array argument: copied in, the callee leaves the bytes `left` in the block and the
      list with the elements `during` (`during` is the list as copied in unless Perl code called
      back changes it), copied out.  See CopyOutInBounds for the condition on its length. */
  method PassArray(order: Order, t: IntType, av: PerlArray, elementCount: nat, left: seq<Byte>, during: seq<PerlInt>)
    returns (seen: seq<int>)
    requires 0 < t.bytes <= 8 && |left| == Span(Count(elementCount, |av.items|), t.bytes)
    requires elementCount != 0 || |during| <= |av.items|
    modifies av
    ensures seen == Passed(t, old(av.items), Count(elementCount, |old(av.items)|))
    ensures var count := Count(elementCount, |during|);
            && Span(count, t.bytes) <= |left|
            && |av.items| == (if |during| < count then count else |during|)
            && av.items[..count] == Ints(View(order, left, 0, t, count))
            && (|during| > count ==> av.items[count..] == during[count..])
  {
    var block, count := CopyIn(order, t, av, elementCount);
    seen := View(order, block[..], 0, t, count);
    Poke(block, 0, left);
    assert block[..] == left;
    CopyOutInBounds(elementCount, |old(av.items)|, |during|, t.bytes);
    av.items := during;
    CopyOut(order, t, av, elementCount, block);
  }

  /** A callee that leaves the block alone leaves a list of in-range values alone. */
  lemma {:induction false} UntouchedRoundTrip(order: Order, t: IntType, items: seq<PerlInt>)
    requires 0 < t.bytes <= 8 && forall i :: 0 <= i < |items| ==> items[i].Int? && InRange(t, items[i].value)
    ensures Ints(Passed(t, items, |items|)) == items
  {
    forall i | 0 <= i < |items|
      ensures Ints(Passed(t, items, |items|))[i] == items[i]
    {
      PassedModulo(t, items, |items|, i);
    }
  }

  /** The copy-out stays inside the block the copy-in made exactly when the count is declared or
      the list has not grown during the call. */
  lemma {:induction false} CopyOutInBounds(elementCount: nat, lengthIn: nat, lengthOut: nat, w: nat)
    requires w > 0
    ensures Span(Count(elementCount, lengthOut), w) <= Span(Count(elementCount, lengthIn), w) <==>
            elementCount != 0 || lengthOut <= lengthIn
  {
    if lengthOut > lengthIn {
      Stride(lengthIn, lengthOut, w);
    } else if lengthOut < lengthIn {
      Stride(lengthOut, lengthIn, w);
    }
  }

  // ---- Bytes allocated for an array ----

  /** sizeof the C element type the normal copy-in branch allocates; 0 is the unsupported arm. */
  function ElementBytes(unit: Code): nat {
    if unit == UINT8 || unit == SINT8 then 1
    else if unit == UINT16 || unit == SINT16 then 2
    else if unit == UINT32 || unit == SINT32 || unit == FLOAT then 4
    else if unit == UINT64 || unit == SINT64 || unit == DOUBLE || unit == COMPLEX_FLOAT then 8
    else if unit == COMPLEX_DOUBLE then 16
    else if unit == OPAQUE || unit == STRING then 8
    else 0
  }

  /** Newxz(ptr, count * (1 << ((type_code & SIZE_MASK) - 1)), char). */
  function FallbackBytes(t: Type): nat {
    t.elementCount * UnitBytes(t.code)
  }

  /** Size agreement: for every fixed-size array type (long double aside) the size reported to Perl,
      the block of the normal copy-in and the zeroed block of the fallback are the same. */
  lemma {:induction false} ArraySizesAgree(t: Type)
    requires Shape(t.code) == SHAPE_ARRAY && IsUnit(Stem(t.code)) && Stem(t.code) != LONG_DOUBLE
    ensures SizeOf(t) == t.elementCount * ElementBytes(Stem(t.code)) == FallbackBytes(t)
  {
    var unit := Stem(t.code);
    assert t.code == SHAPE_ARRAY | unit;
    assert UnitBytes(t.code) == ElementBytes(unit) == UnitSize(t);
  }
}
