/** Typed views over byte buffers: (T*) &bytes[offset], with element i at offset + i * sizeof(T). */
module Views {
  import opened Words

  /** Bytes taken by n elements of w bytes: n * w, and so where element n begins. */
  function Span(n: nat, w: nat): nat {
    if n == 0 then 0 else Span(n - 1, w) + w
  }

  lemma {:induction false} SpanIsProduct(n: nat, w: nat)
    ensures Span(n, w) == n * w
  {
    if n > 0 {
      SpanIsProduct(n - 1, w);
      assert n * w == (n - 1) * w + w;
    }
  }

  /** Element i lies below element j, for i < j, and does not overlap it. */
  lemma {:induction false} Stride(i: nat, j: nat, w: nat)
    requires i < j
    ensures Span(i, w) + w <= Span(j, w)
  {
    if i + 1 < j {
      Stride(i, j - 1, w);
    }
  }

  /** n elements of type t fit at `offset` in a buffer of `size` bytes. */
  predicate Fits(offset: nat, t: IntType, n: nat, size: nat) {
    t.bytes > 0 && offset + Span(n, t.bytes) <= size
  }

  function Element(order: Order, bytes: seq<Byte>, offset: nat, t: IntType, n: nat, i: nat): int
    requires Fits(offset, t, n, |bytes|) && i < n
  {
    Stride(i, n, t.bytes);
    LoadInt(order, t, bytes[offset + Span(i, t.bytes)..offset + Span(i, t.bytes) + t.bytes])
  }

  /** The n integers at `offset`. */
  function View(order: Order, bytes: seq<Byte>, offset: nat, t: IntType, n: nat): (r: seq<int>)
    requires Fits(offset, t, n, |bytes|)
    ensures |r| == n
    ensures forall i :: 0 <= i < n ==> r[i] == Element(order, bytes, offset, t, n, i)
  {
    seq(n, i requires 0 <= i < n => Element(order, bytes, offset, t, n, i))
  }

  predicate AllInRange(t: IntType, list: seq<int>) {
    forall i :: 0 <= i < |list| ==> InRange(t, list[i])
  }

  /** The bytes of a list of integers laid end to end. */
  function Encode(order: Order, t: IntType, list: seq<int>): (r: seq<Byte>)
    ensures |r| == Span(|list|, t.bytes)
  {
    if list == [] then [] else Encode(order, t, list[..|list| - 1]) + StoreInt(order, t, list[|list| - 1])
  }

  /** The buffer with `list` stored at `offset`. */
  function Overwrite(order: Order, bytes: seq<Byte>, offset: nat, t: IntType, list: seq<int>): (r: seq<Byte>)
    requires Fits(offset, t, |list|, |bytes|)
    ensures |r| == |bytes|
  {
    Patched(bytes, offset, Encode(order, t, list))
  }

  lemma {:induction false} EncodeAt(order: Order, t: IntType, list: seq<int>, i: nat)
    requires i < |list| && t.bytes > 0
    ensures Span(i, t.bytes) + t.bytes <= |Encode(order, t, list)|
    ensures Encode(order, t, list)[Span(i, t.bytes)..Span(i, t.bytes) + t.bytes] == StoreInt(order, t, list[i])
  {
    Stride(i, |list|, t.bytes);
    var last := |list| - 1;
    var e := Encode(order, t, list[..last]);
    assert |e| == Span(last, t.bytes);
    if i == last {
      assert Encode(order, t, list)[Span(last, t.bytes)..] == StoreInt(order, t, list[last]);
    } else {
      EncodeAt(order, t, list[..last], i);
      Stride(i, last, t.bytes);
      assert Encode(order, t, list)[Span(i, t.bytes)..Span(i, t.bytes) + t.bytes] ==
          e[Span(i, t.bytes)..Span(i, t.bytes) + t.bytes];
    }
  }

  lemma {:induction false} ElementOfOverwrite(order: Order, bytes: seq<Byte>, offset: nat, t: IntType, list: seq<int>,
                                              i: nat)
    requires Fits(offset, t, |list|, |bytes|) && i < |list| && InRange(t, list[i])
    ensures Element(order, Overwrite(order, bytes, offset, t, list), offset, t, |list|, i) == list[i]
  {
    Stride(i, |list|, t.bytes);
    EncodeAt(order, t, list, i);
    var image, at := StoreInt(order, t, list[i]), offset + Span(i, t.bytes);
    PatchedSlice(bytes, offset, Encode(order, t, list), Span(i, t.bytes), image, at);
    ElementIs(order, Overwrite(order, bytes, offset, t, list), offset, t, |list|, i, at, image);
    StoreLoad(order, t, list[i]);
  }

  lemma {:induction false} PatchedSlice(bytes: seq<Byte>, offset: nat, patch: seq<Byte>, from: nat, part: seq<Byte>,
                                        at: nat)
    requires offset + |patch| <= |bytes| && at == offset + from
    requires from + |part| <= |patch| && part == patch[from..from + |part|]
    ensures at + |part| <= |bytes| && Patched(bytes, offset, patch)[at..at + |part|] == part
  {
    MiddleSlice(bytes[..offset], patch, bytes[offset + |patch|..], Patched(bytes, offset, patch), from, |part|, at);
  }

  lemma {:induction false} MiddleSlice(a: seq<Byte>, b: seq<Byte>, c: seq<Byte>, whole: seq<Byte>, from: nat, n: nat,
                                       at: nat)
    requires from + n <= |b| && whole == a + b + c && at == |a| + from
    ensures whole[at..at + n] == b[from..from + n]
  {
  }

  /** An element whose bytes are known. */
  lemma {:induction false} ElementIs(order: Order, bytes: seq<Byte>, offset: nat, t: IntType, n: nat, i: nat, at: nat,
                                     image: seq<Byte>)
    requires Fits(offset, t, n, |bytes|) && i < n && at == offset + Span(i, t.bytes) && at + t.bytes <= |bytes|
    requires |image| == t.bytes && image == bytes[at..at + t.bytes]
    ensures Element(order, bytes, offset, t, n, i) == LoadInt(order, t, image)
  {
  }

  /** Reading a stored list back gives its values modulo 2^n. */
  lemma {:induction false} ViewOfOverwrite(order: Order, bytes: seq<Byte>, offset: nat, t: IntType, list: seq<int>)
    requires Fits(offset, t, |list|, |bytes|) && AllInRange(t, list)
    ensures View(order, Overwrite(order, bytes, offset, t, list), offset, t, |list|) == list
  {
    forall i | 0 <= i < |list|
      ensures Element(order, Overwrite(order, bytes, offset, t, list), offset, t, |list|, i) == list[i]
    {
      ElementOfOverwrite(order, bytes, offset, t, list, i);
    }
  }

  /** [a, a + m) and [b, b + n) share no byte. */
  predicate Apart(a: nat, m: nat, b: nat, n: nat) {
    a + m <= b || b + n <= a
  }

  /** Storing a list leaves every view of other bytes as it was. */
  lemma {:induction false} ViewElsewhere(order: Order, bytes: seq<Byte>, offset: nat, t: IntType, list: seq<int>,
                                         other: nat, u: IntType, n: nat)
    requires Fits(offset, t, |list|, |bytes|) && Fits(other, u, n, |bytes|)
    requires Apart(offset, Span(|list|, t.bytes), other, Span(n, u.bytes))
    ensures View(order, Overwrite(order, bytes, offset, t, list), other, u, n) == View(order, bytes, other, u, n)
  {
    var after := Overwrite(order, bytes, offset, t, list);
    OverwriteOutside(order, bytes, offset, t, list);
    forall i | 0 <= i < n
      ensures Element(order, after, other, u, n, i) == Element(order, bytes, other, u, n, i)
    {
      Stride(i, n, u.bytes);
      var at := other + Span(i, u.bytes);
      SameSlice(offset, Span(|list|, t.bytes), bytes, after, at, u.bytes);
      ElementIs(order, bytes, other, u, n, i, at, bytes[at..at + u.bytes]);
      ElementIs(order, after, other, u, n, i, at, bytes[at..at + u.bytes]);
    }
  }

  lemma {:induction false} SameSlice(offset: nat, size: nat, before: seq<Byte>, after: seq<Byte>, at: nat, n: nat)
    requires SameOutside(offset, size, before, after) && Apart(offset, size, at, n) && at + n <= |before|
    ensures after[at..at + n] == before[at..at + n]
  {
  }

  /** Lists stored in different places can be stored in either order. */
  lemma {:induction false} OverwritesCommute(order: Order, bytes: seq<Byte>, offset: nat, t: IntType, list: seq<int>,
                                             other: nat, u: IntType, list': seq<int>)
    requires Fits(offset, t, |list|, |bytes|) && Fits(other, u, |list'|, |bytes|)
    requires Apart(offset, Span(|list|, t.bytes), other, Span(|list'|, u.bytes))
    ensures Overwrite(order, Overwrite(order, bytes, offset, t, list), other, u, list') ==
            Overwrite(order, Overwrite(order, bytes, other, u, list'), offset, t, list)
  {
    PatchesCommute(bytes, offset, Encode(order, t, list), other, Encode(order, u, list'));
  }

  function Patched(bytes: seq<Byte>, at: nat, image: seq<Byte>): (r: seq<Byte>)
    requires at + |image| <= |bytes|
    ensures |r| == |bytes|
  {
    bytes[..at] + image + bytes[at + |image|..]
  }

  lemma {:induction false} PatchesCommute(bytes: seq<Byte>, a: nat, x: seq<Byte>, b: nat, y: seq<Byte>)
    requires a + |x| <= |bytes| && b + |y| <= |bytes| && Apart(a, |x|, b, |y|)
    ensures Patched(Patched(bytes, a, x), b, y) == Patched(Patched(bytes, b, y), a, x)
  {
    var l, r := Patched(Patched(bytes, a, x), b, y), Patched(Patched(bytes, b, y), a, x);
    forall k | 0 <= k < |bytes|
      ensures l[k] == r[k]
    {
    }
  }

  lemma {:induction false} ViewInRange(order: Order, bytes: seq<Byte>, offset: nat, t: IntType, n: nat)
    requires Fits(offset, t, n, |bytes|)
    ensures AllInRange(t, View(order, bytes, offset, t, n))
  {
    forall i | 0 <= i < n
      ensures InRange(t, Element(order, bytes, offset, t, n, i))
    {
      Stride(i, n, t.bytes);
      CastFacts(t, Word(order, bytes[offset + Span(i, t.bytes)..offset + Span(i, t.bytes) + t.bytes]));
    }
  }

  /** The bytes of a view are determined by its values: storing what was read changes nothing. */
  lemma {:induction false} OverwriteOfView(order: Order, bytes: seq<Byte>, offset: nat, t: IntType, n: nat)
    requires Fits(offset, t, n, |bytes|)
    ensures Overwrite(order, bytes, offset, t, View(order, bytes, offset, t, n)) == bytes
  {
    var end := offset + Span(n, t.bytes);
    EncodeOfView(order, bytes, offset, t, n, View(order, bytes, offset, t, n), end);
    Rejoined(bytes, offset, end);
  }

  lemma {:induction false} Rejoined(bytes: seq<Byte>, from: nat, to: nat)
    requires from <= to <= |bytes|
    ensures bytes[..from] + bytes[from..to] + bytes[to..] == bytes
  {
  }

  lemma {:induction false} ViewPrefix(order: Order, bytes: seq<Byte>, offset: nat, t: IntType, n: nat)
    requires Fits(offset, t, n + 1, |bytes|)
    ensures Fits(offset, t, n, |bytes|)
    ensures View(order, bytes, offset, t, n + 1)[..n] == View(order, bytes, offset, t, n)
  {
    Stride(n, n + 1, t.bytes);
    forall i | 0 <= i < n
      ensures Element(order, bytes, offset, t, n + 1, i) == Element(order, bytes, offset, t, n, i)
    {
    }
  }

  /** A view without its last element, and that element. */
  lemma {:induction false} ViewStep(order: Order, bytes: seq<Byte>, offset: nat, t: IntType, n: nat, list: seq<int>,
                                    end: nat)
    returns (shorter: seq<int>, at: nat)
    requires Fits(offset, t, n + 1, |bytes|) && list == View(order, bytes, offset, t, n + 1)
    requires end == offset + Span(n + 1, t.bytes)
    ensures Fits(offset, t, n, |bytes|) && offset <= at == offset + Span(n, t.bytes) && at + t.bytes == end <= |bytes|
    ensures shorter == View(order, bytes, offset, t, n) == list[..|list| - 1]
    ensures list[|list| - 1] == LoadInt(order, t, bytes[at..end])
  {
    Stride(n, n + 1, t.bytes);
    ViewPrefix(order, bytes, offset, t, n);
    shorter, at := View(order, bytes, offset, t, n), end - t.bytes;
    ElementIs(order, bytes, offset, t, n + 1, n, at, bytes[at..end]);
  }

  lemma {:induction false} EncodeOfView(order: Order, bytes: seq<Byte>, offset: nat, t: IntType, n: nat,
                                        list: seq<int>, end: nat)
    requires Fits(offset, t, n, |bytes|) && end == offset + Span(n, t.bytes) && list == View(order, bytes, offset, t, n)
    ensures Encode(order, t, list) == bytes[offset..end]
  {
    if n > 0 {
      var shorter, at := ViewStep(order, bytes, offset, t, n - 1, list, end);
      EncodeOfView(order, bytes, offset, t, n - 1, shorter, at);
      EncodeGlued(order, t, shorter, list, bytes, offset, at, end);
    }
  }

  lemma {:induction false} EncodeGlued(order: Order, t: IntType, shorter: seq<int>, list: seq<int>, bytes: seq<Byte>,
                                       from: nat, at: nat, to: nat)
    requires t.bytes > 0 && list != [] && shorter == list[..|list| - 1] && from <= at && at + t.bytes == to <= |bytes|
    requires Encode(order, t, shorter) == bytes[from..at] && list[|list| - 1] == LoadInt(order, t, bytes[at..to])
    ensures Encode(order, t, list) == bytes[from..to]
  {
    LoadStore(order, t, bytes[at..to]);
    assert bytes[from..to] == bytes[from..at] + bytes[at..to];
  }

  /** *(T*)&data[at] = x, where `image` is the byte image of x. */
  method Poke(data: array<Byte>, at: nat, image: seq<Byte>)
    requires at + |image| <= data.Length
    modifies data
    ensures data[..] == old(data[..at]) + image + old(data[at + |image|..])
  {
    forall k | 0 <= k < |image| {
      data[at + k] := image[k];
    }
  }

  /** Element j of a view after the t.bytes bytes at `at`, the place of element i, were replaced. */
  lemma {:induction false} ElementAfterPoke(order: Order, before: seq<Byte>, after: seq<Byte>, offset: nat, t: IntType,
                                            n: nat,
                                            i: nat, j: nat, at: nat, image: seq<Byte>)
    requires Fits(offset, t, n, |before|) && i < n && j < n && |after| == |before| && |image| == t.bytes
    requires at == offset + Span(i, t.bytes) && at + t.bytes <= |before|
    requires after == before[..at] + image + before[at + t.bytes..]
    ensures Element(order, after, offset, t, n, j) ==
            if j == i then LoadInt(order, t, image) else Element(order, before, offset, t, n, j)
  {
    Stride(j, n, t.bytes);
    var to := offset + Span(j, t.bytes);
    if j < i {
      Stride(j, i, t.bytes);
    } else if j > i {
      Stride(i, j, t.bytes);
    }
    assert after[to..to + t.bytes] == if j == i then image else before[to..to + t.bytes];
  }

  /** One element stored, seen through the view. */
  lemma {:induction false} PokedElement(order: Order, before: seq<Byte>, after: seq<Byte>, offset: nat, t: IntType,
                                        n: nat,
                                        i: nat, x: int, at: nat)
    requires Fits(offset, t, n, |before|) && i < n && |after| == |before|
    requires at == offset + Span(i, t.bytes) && at + t.bytes <= offset + Span(n, t.bytes)
    requires after == before[..at] + StoreInt(order, t, x) + before[at + t.bytes..]
    ensures View(order, after, offset, t, n) == View(order, before, offset, t, n)[i := Cast(t, x)]
    ensures SameOutside(offset, Span(n, t.bytes), before, after)
  {
    Stride(i, n, t.bytes);
    StoreLoad(order, t, x);
    PokedOutside(before, after, at, StoreInt(order, t, x), offset, Span(n, t.bytes));
    var y := Cast(t, x);
    forall j | 0 <= j < n
      ensures Element(order, after, offset, t, n, j) == if j == i then y else Element(order, before, offset, t, n, j)
    {
      ElementAfterPoke(order, before, after, offset, t, n, i, j, at, StoreInt(order, t, x));
    }
  }

  lemma {:induction false} PokedOutside(before: seq<Byte>, after: seq<Byte>, at: nat, image: seq<Byte>, offset: nat,
                                        size: nat)
    requires offset <= at && at + |image| <= offset + size && at + |image| <= |before|
    requires after == before[..at] + image + before[at + |image|..]
    ensures SameOutside(offset, size, before, after)
  {
  }

  /** Every byte outside the `size` bytes at `offset` is the same. */
  ghost predicate SameOutside(offset: nat, size: nat, before: seq<Byte>, after: seq<Byte>) {
    |before| == |after| &&
    forall k :: 0 <= k < |before| && !(offset <= k < offset + size) ==> after[k] == before[k]
  }

  lemma {:induction false} OverwriteOutside(order: Order, bytes: seq<Byte>, offset: nat, t: IntType, list: seq<int>)
    requires Fits(offset, t, |list|, |bytes|)
    ensures SameOutside(offset, Span(|list|, t.bytes), bytes, Overwrite(order, bytes, offset, t, list))
  {
  }

  /** A buffer is fixed by what its view shows and by the bytes outside it. */
  lemma {:induction false} FixedByView(order: Order, before: seq<Byte>, after: seq<Byte>, offset: nat, t: IntType,
                                       list: seq<int>)
    requires Fits(offset, t, |list|, |before|) && |after| == |before|
    requires View(order, after, offset, t, |list|) == list
    requires SameOutside(offset, Span(|list|, t.bytes), before, after)
    ensures after == Overwrite(order, before, offset, t, list)
  {
    OverwriteOfView(order, after, offset, t, |list|);
  }

  /** One more element of `target` in place. */
  ghost function NextShown(shown: seq<int>, target: seq<int>, i: nat): (r: seq<int>)
    requires i < |target| == |shown| && shown[..i] == target[..i]
    ensures r == shown[i := target[i]] && r[..i + 1] == target[..i + 1]
  {
    var r := shown[i := target[i]];
    assert r[..i + 1] == shown[..i] + [target[i]];
    r
  }
}
