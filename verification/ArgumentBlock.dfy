/** The values in the argument block: the slot union of include/ffi_platypus.h, the arguments_*
    calls of xs/API.xs through which handlers fill it, and what the foreign function finds there. */
module ArgumentBlock {
  import opened TypeCodes
  import opened Signature
  import opened Words
  import opened IntegerTypes
  import opened CodeLaws
  import Views

  /** ffi_pl_argument: one union of eight bytes. */
  type Slot = s: seq<Byte> | |s| == 8 witness [0, 0, 0, 0, 0, 0, 0, 0]

  /** A store through one of the union's members: the image of the value, at the low address. */
  datatype Write = Write(slot: nat, image: seq<Byte>)

  /** One Perl-level argument: what its perl_to_native handler writes through the arguments_set_*
      calls, and the image the argument-in switch then stores in its first slot, if it stores
      there (it does not when the handler returned the empty list or the value lives elsewhere). */
  datatype Fill = Fill(ty: Type, api: seq<Write>, own: Option<seq<Byte>>)

  function Types(fills: seq<Fill>): (r: seq<Type>)
    ensures |r| == |fills|
  {
    seq(|fills|, k requires 0 <= k < |fills| => fills[k].ty)
  }

  function SlotOf(fills: seq<Fill>, k: nat): nat
    requires k <= |fills|
  {
    Offset(Types(fills), k)
  }

  predicate Fits(w: Write, n: nat) {
    w.slot < n && |w.image| <= 8
  }

  ghost predicate AllFit(writes: seq<Write>, n: nat) {
    forall j :: 0 <= j < |writes| ==> Fits(writes[j], n)
  }

  /** Handlers stay inside the block, as C demands of them. */
  ghost predicate Sound(fills: seq<Fill>) {
    forall k :: 0 <= k < |fills| ==>
      AllFit(fills[k].api, |Expand(Types(fills))|) && (fills[k].own.Some? ==> |fills[k].own.value| <= 8)
  }

  // ---- Writes ----

  function Overlay(slot: Slot, image: seq<Byte>): (r: Slot)
    requires |image| <= 8
    ensures r[..|image|] == image && r[|image|..] == slot[|image|..]
  {
    image + slot[|image|..]
  }

  ghost function Apply(block: seq<Slot>, writes: seq<Write>): (r: seq<Slot>)
    requires AllFit(writes, |block|)
    ensures |r| == |block|
  {
    if writes == [] then block
    else
      var last := writes[|writes| - 1];
      var before := Apply(block, writes[..|writes| - 1]);
      before[last.slot := Overlay(before[last.slot], last.image)]
  }

  /** The image last written to slot i. */
  function LastTo(writes: seq<Write>, i: nat): Option<seq<Byte>> {
    if writes == [] then None
    else if writes[|writes| - 1].slot == i then Some(writes[|writes| - 1].image)
    else LastTo(writes[..|writes| - 1], i)
  }

  /** The last write to a slot is there in full, and a slot nobody wrote to is unchanged. */
  lemma {:induction false} LastWriteStands(block: seq<Slot>, writes: seq<Write>, i: nat)
    requires AllFit(writes, |block|) && i < |block|
    ensures match LastTo(writes, i)
            case None => Apply(block, writes)[i] == block[i]
            case Some(image) => |image| <= 8 && Apply(block, writes)[i][..|image|] == image
  {
    if writes != [] {
      LastWriteStands(block, writes[..|writes| - 1], i);
    }
  }

  lemma {:induction false} LastOfConcat(a: seq<Write>, b: seq<Write>, i: nat)
    ensures LastTo(a + b, i) == if LastTo(b, i).Some? then LastTo(b, i) else LastTo(a, i)
  {
    if b == [] {
      assert a + b == a;
    } else {
      LastOfConcat(a, b[..|b| - 1], i);
      assert (a + b)[..|a + b| - 1] == a + b[..|b| - 1];
    }
  }

  lemma {:induction false} ApplyConcat(block: seq<Slot>, a: seq<Write>, b: seq<Write>)
    requires AllFit(a + b, |block|) && AllFit(a, |block|) && AllFit(b, |block|)
    ensures Apply(block, a + b) == Apply(Apply(block, a), b)
  {
    if b == [] {
      assert a + b == a;
    } else {
      ApplyConcat(block, a, b[..|b| - 1]);
      assert (a + b)[..|a + b| - 1] == a + b[..|b| - 1];
    }
  }

  // ---- The argument-in loop, as writes ----

  function OwnWrite(fill: Fill, slot: nat): seq<Write> {
    if fill.own.Some? then [Write(slot, fill.own.value)] else []
  }

  /** The writes of argument k: its handler's, then the engine's. */
  function WritesAt(fills: seq<Fill>, k: nat): seq<Write>
    requires k < |fills|
  {
    fills[k].api + OwnWrite(fills[k], SlotOf(fills, k))
  }

  /** All writes of arguments from j up to k. */
  function Writes(fills: seq<Fill>, j: nat, k: nat): seq<Write>
    requires j <= k <= |fills|
  {
    if j == k then [] else Writes(fills, j, k - 1) + WritesAt(fills, k - 1)
  }

  lemma {:induction false} WritesFit(fills: seq<Fill>, j: nat, k: nat)
    requires Sound(fills) && j <= k <= |fills|
    ensures AllFit(Writes(fills, j, k), |Expand(Types(fills))|)
  {
    if j < k {
      WritesFit(fills, j, k - 1);
      ExpandAt(Types(fills), k - 1, 0);
    }
  }

  lemma {:induction false} WritesSplit(fills: seq<Fill>, i: nat, j: nat, k: nat)
    requires i <= j <= k <= |fills|
    ensures Writes(fills, i, k) == Writes(fills, i, j) + Writes(fills, j, k)
  {
    if j < k {
      WritesSplit(fills, i, j, k - 1);
    }
  }

  ghost predicate NoneTo(writes: seq<Write>, i: nat) {
    forall j :: 0 <= j < |writes| ==> writes[j].slot != i
  }

  lemma {:induction false} NoneToLast(writes: seq<Write>, i: nat)
    requires NoneTo(writes, i)
    ensures LastTo(writes, i) == None
  {
    if writes != [] {
      NoneToLast(writes[..|writes| - 1], i);
    }
  }

  /** No handler of an argument after k writes to slot i. */
  ghost predicate LeftAlone(fills: seq<Fill>, k: nat, i: nat) {
    forall m :: k < m < |fills| ==> NoneTo(fills[m].api, i)
  }

  /** The engine itself never writes to a slot of an earlier argument. */
  lemma {:induction false} LaterWritesElsewhere(fills: seq<Fill>, k: nat, i: nat, m: nat)
    requires k < m <= |fills| && i < SlotOf(fills, k + 1) && LeftAlone(fills, k, i)
    ensures NoneTo(Writes(fills, k + 1, m), i)
    decreases m
  {
    if k + 1 < m {
      LaterWritesElsewhere(fills, k, i, m - 1);
      OffsetMonotone(Types(fills), k + 1, m - 1);
    }
  }

  /** The block at the foreign call, and what the callee finds in the slots of argument k:
      what was last written there on behalf of argument k, provided no later handler reaches back. */
  lemma {:induction false} SlotsAtForeignCall(fills: seq<Fill>, block: seq<Slot>, k: nat, j: nat)
    requires Sound(fills) && |block| == |Expand(Types(fills))| && k < |fills| && j < Slots(fills[k].ty)
    requires LeftAlone(fills, k, SlotOf(fills, k) + j)
    ensures AllFit(Writes(fills, 0, |fills|), |block|)
    ensures var i := SlotOf(fills, k) + j;
            var last := if j == 0 && fills[k].own.Some? then fills[k].own else LastTo(fills[k].api, i);
            && i < |block|
            && (last.Some? ==>
                  |last.value| <= 8 && Apply(block, Writes(fills, 0, |fills|))[i][..|last.value|] == last.value)
  {
    ExpandAt(Types(fills), k, j);
    WritesFit(fills, 0, |fills|);
    LastForSlot(fills, k, j);
    LastWriteStands(block, Writes(fills, 0, |fills|), SlotOf(fills, k) + j);
  }

  lemma {:induction false} LastForSlot(fills: seq<Fill>, k: nat, j: nat)
    requires k < |fills| && j < Slots(fills[k].ty) && LeftAlone(fills, k, SlotOf(fills, k) + j)
    ensures var i := SlotOf(fills, k) + j;
            var last := if j == 0 && fills[k].own.Some? then fills[k].own else LastTo(fills[k].api, i);
            last.Some? ==> LastTo(Writes(fills, 0, |fills|), i) == last
  {
    var i := SlotOf(fills, k) + j;
    OffsetStep(Types(fills), k);
    LaterWritesElsewhere(fills, k, i, |fills|);
    WritesSplit(fills, 0, k + 1, |fills|);
    var earlier, own, later := Writes(fills, 0, k), WritesAt(fills, k), Writes(fills, k + 1, |fills|);
    assert Writes(fills, 0, k + 1) == earlier + own;
    NoneToLast(later, i);
    LastOfConcat(earlier + own, later, i);
    LastOfConcat(earlier, own, i);
    LastOfArgument(fills, k, j);
  }

  /** The engine's store comes after the handler's and hits the first slot only. */
  lemma {:induction false} LastOfArgument(fills: seq<Fill>, k: nat, j: nat)
    requires k < |fills|
    ensures LastTo(WritesAt(fills, k), SlotOf(fills, k) + j) ==
            if j == 0 && fills[k].own.Some? then fills[k].own else LastTo(fills[k].api, SlotOf(fills, k) + j)
  {
    LastOfConcat(fills[k].api, OwnWrite(fills[k], SlotOf(fills, k)), SlotOf(fills, k) + j);
  }

  /** The code whose integer type the argument-in switch stores by: custom and object shapes are
      stripped, the latter for the value inside the object. */
  function Stored(code: Code): Code {
    if IsCustom(code) then Basis(code) else if Shape(code) == SHAPE_OBJECT then code ^ SHAPE_OBJECT else code
  }

  /** Argument types that take one C integer, whatever their shape. */
  predicate TakesInteger(code: Code) {
    IsArgument(code) && Shape(code) != SHAPE_POINTER && Shape(code) != SHAPE_ARRAY &&
    (Base(code) == BASE_SINT || Base(code) == BASE_UINT)
  }

  /** What the switch stores for a Perl value. */
  function OwnImage(order: Order, code: Code, v: PerlInt): seq<Byte>
    requires TakesInteger(code)
  {
    StoredInteger(code);
    var t := IntegerOf(Stored(code));
    StoreInt(order, t, ToC(t, v))
  }

  lemma {:induction false} StoredInteger(code: Code)
    requires TakesInteger(code)
    ensures IsInteger(Stored(code)) && (IsCustom(code) || Shape(code) == SHAPE_OBJECT ==> Stem(code) == Stored(code))
  {
  }

  /** Custom and object shapes leave the bits of the width and of the sign alone. */
  lemma {:induction false} StoredBits(code: Code, n: IntType)
    requires HasBits(code, n) && (Stored(code) == code || Stored(code) == Stem(code))
    ensures HasBits(Stored(code), n)
  {
  }

  lemma {:induction false} StoredAsDeclared(order: Order, t: Type, n: IntType, v: PerlInt)
    requires TakesInteger(t.code) && HasBits(t.code, n)
    ensures ToLibffi(t) == Some(FfiInt(n.bytes, n.signed)) && 0 < n.bytes <= 8
    ensures OwnImage(order, t.code, v) == StoreInt(order, n, ToC(n, v))
  {
    StoredInteger(t.code);
    StoredBits(t.code, n);
    BitsAreType(Stored(t.code), n);
  }

  /** An integer argument, custom types and objects over integers included, n being the C type of the width and
      signedness its code has in its bits: libffi was told n, and the callee reads the Perl value modulo
      2^n, in-range values unmolested, undef as zero. */
  lemma {:induction false} IntegerReachesCallee(order: Order, fills: seq<Fill>, block: seq<Slot>, k: nat, n: IntType,
                                                v: PerlInt)
    requires Sound(fills) && |block| == |Expand(Types(fills))| && k < |fills|
    requires TakesInteger(fills[k].ty.code) && LeftAlone(fills, k, SlotOf(fills, k))
    requires HasBits(fills[k].ty.code, n) && fills[k].own == Some(OwnImage(order, fills[k].ty.code, v))
    ensures ToLibffi(fills[k].ty) == Some(FfiInt(n.bytes, n.signed)) && 0 < n.bytes <= 8
    ensures AllFit(Writes(fills, 0, |fills|), |block|) && SlotOf(fills, k) < |block|
    ensures var x := if v.Int? then v.value else 0;
            var seen := LoadInt(order, n, Apply(block, Writes(fills, 0, |fills|))[SlotOf(fills, k)][..n.bytes]);
            seen == Cast(n, x) && (InRange(n, x) ==> seen == x)
  {
    StoredAsDeclared(order, fills[k].ty, n, v);
    ImageReachesCallee(order, fills, block, k, n, v);
  }

  lemma {:induction false} ImageReachesCallee(order: Order, fills: seq<Fill>, block: seq<Slot>, k: nat, n: IntType,
                                              v: PerlInt)
    requires Sound(fills) && |block| == |Expand(Types(fills))| && k < |fills| && 0 < n.bytes <= 8
    requires fills[k].own == Some(StoreInt(order, n, ToC(n, v))) && LeftAlone(fills, k, SlotOf(fills, k))
    ensures AllFit(Writes(fills, 0, |fills|), |block|) && SlotOf(fills, k) < |block|
    ensures var x := if v.Int? then v.value else 0;
            var seen := LoadInt(order, n, Apply(block, Writes(fills, 0, |fills|))[SlotOf(fills, k)][..n.bytes]);
            seen == Cast(n, x) && (InRange(n, x) ==> seen == x)
  {
    SlotsAtForeignCall(fills, block, k, 0);
    ToCInRange(n, v);
    StoreLoad(order, n, ToC(n, v));
    CastFacts(n, if v.Int? then v.value else 0);
  }

  // ---- The block of an array argument, found again on the way out ----

  /** One slot after some writes, of which only those to slot i matter. */
  function Overlaid(slot: Slot, writes: seq<Write>, i: nat): Slot
    requires forall j :: 0 <= j < |writes| ==> |writes[j].image| <= 8
  {
    if writes == [] then slot
    else
      var last := writes[|writes| - 1];
      var before := Overlaid(slot, writes[..|writes| - 1], i);
      if last.slot == i then Overlay(before, last.image) else before
  }

  lemma {:induction false} SlotAfterWrites(block: seq<Slot>, writes: seq<Write>, i: nat)
    requires AllFit(writes, |block|) && i < |block|
    ensures Apply(block, writes)[i] == Overlaid(block[i], writes, i)
  {
    if writes != [] {
      SlotAfterWrites(block, writes[..|writes| - 1], i);
    }
  }

  lemma {:induction false} NotOverlaid(slot: Slot, writes: seq<Write>, i: nat)
    requires (forall j :: 0 <= j < |writes| ==> |writes[j].image| <= 8) && NoneTo(writes, i)
    ensures Overlaid(slot, writes, i) == slot
  {
    if writes != [] {
      NotOverlaid(slot, writes[..|writes| - 1], i);
    }
  }

  /** Everything written to the block between the store for argument k and its copy-out: for the later
      arguments, and by their post handlers. */
  function Later(fills: seq<Fill>, k: nat, posts: seq<Write>): seq<Write>
    requires k < |fills|
  {
    Writes(fills, k + 1, |fills|) + posts
  }

  /** The block at the copy-out of argument k. */
  ghost function AtCopyOut(block: seq<Slot>, fills: seq<Fill>, posts: seq<Write>): (r: seq<Slot>)
    requires Sound(fills) && |block| == |Expand(Types(fills))| && AllFit(posts, |block|)
    ensures |r| == |block|
  {
    WritesFit(fills, 0, |fills|);
    Apply(Apply(block, Writes(fills, 0, |fills|)), posts)
  }

  /** The copy-out of a pointer or array argument takes its block from the slot, where the copy-in put
      the address.  It finds the same block if and only if what was written to that slot since, by
      handlers of later arguments through the API, leaves that address in it; in particular if
      nothing was written there. */
  lemma {:induction false} BlockAtCopyOut(order: Order, fills: seq<Fill>, block: seq<Slot>, k: nat, posts: seq<Write>,
                                          address: int)
    requires Sound(fills) && |block| == |Expand(Types(fills))| && AllFit(posts, |block|) && k < |fills|
    requires InRange(ADDRESS, address) && fills[k].own == Some(StoreInt(order, ADDRESS, address))
    ensures var i, stored, later := SlotOf(fills, k), StoreInt(order, ADDRESS, address), Later(fills, k, posts);
            && i < |block| && AllFit(later, |block|)
            && var found := LoadInt(order, ADDRESS, AtCopyOut(block, fills, posts)[i]);
               && (found == address <==> Overlaid(stored, later, i) == stored)
               && (NoneTo(later, i) ==> found == address)
  {
    var i, stored, later := SlotOf(fills, k), StoreInt(order, ADDRESS, address), Later(fills, k, posts);
    var slot := SlotAtCopyOut(fills, block, k, posts, stored);
    StoreLoad(order, ADDRESS, address);
    LoadStore(order, ADDRESS, slot);
    if NoneTo(later, i) {
      NotOverlaid(stored, later, i);
    }
  }

  lemma {:induction false} SlotAtCopyOut(fills: seq<Fill>, block: seq<Slot>, k: nat, posts: seq<Write>, stored: Slot)
    returns (slot: Slot)
    requires Sound(fills) && |block| == |Expand(Types(fills))| && AllFit(posts, |block|) && k < |fills|
    requires fills[k].own == Some(stored)
    ensures SlotOf(fills, k) < |block| && AllFit(Later(fills, k, posts), |block|)
    ensures slot == AtCopyOut(block, fills, posts)[SlotOf(fills, k)]
    ensures slot == Overlaid(stored, Later(fills, k, posts), SlotOf(fills, k))
  {
    var n, i, later := |fills|, SlotOf(fills, k), Later(fills, k, posts);
    ExpandAt(Types(fills), k, 0);
    WritesFit(fills, 0, n);
    WritesFit(fills, 0, k + 1);
    WritesFit(fills, k + 1, n);
    WritesSplit(fills, 0, k + 1, n);
    var stage := Apply(block, Writes(fills, 0, k + 1));
    ApplyConcat(block, Writes(fills, 0, k + 1), Writes(fills, k + 1, n));
    ApplyConcat(stage, Writes(fills, k + 1, n), posts);
    StoredNow(fills, block, k, stored);
    SlotAfterWrites(stage, later, i);
    slot := AtCopyOut(block, fills, posts)[i];
  }

  /** Right after the store for argument k its slot holds what was stored. */
  lemma {:induction false} StoredNow(fills: seq<Fill>, block: seq<Slot>, k: nat, stored: Slot)
    requires Sound(fills) && |block| == |Expand(Types(fills))| && k < |fills| && fills[k].own == Some(stored)
    requires AllFit(Writes(fills, 0, k + 1), |block|) && SlotOf(fills, k) < |block|
    ensures Apply(block, Writes(fills, 0, k + 1))[SlotOf(fills, k)] == stored
  {
    var writes, i := Writes(fills, 0, k + 1), SlotOf(fills, k);
    LastOfArgument(fills, k, 0);
    LastOfConcat(Writes(fills, 0, k), WritesAt(fills, k), i);
    LastWriteStands(block, writes, i);
    var now := Apply(block, writes)[i];
    assert now[..8] == now && |stored| == 8;
  }

  // ---- The block itself ----

  function SlotsIn(bytes: seq<Byte>, count: nat): (r: seq<Slot>)
    requires |bytes| == 8 * count
    ensures |r| == count
  {
    seq(count, i requires 0 <= i < count => bytes[8 * i..8 * i + 8])
  }

  lemma {:induction false} SlotAfterStore(before: seq<Byte>, after: seq<Byte>, count: nat, i: nat, image: seq<Byte>,
                                          j: nat)
    requires |before| == 8 * count && i < count && j < count && |image| <= 8
    requires after == before[..8 * i] + image + before[8 * i + |image|..]
    ensures after[8 * j..8 * j + 8] == if j == i then Overlay(before[8 * i..8 * i + 8], image)
            else before[8 * j..8 * j + 8]
  {
    SlotSlice(before, after, 8 * i, image, 8 * j);
  }

  lemma {:induction false} SlotSlice(before: seq<Byte>, after: seq<Byte>, at: nat, image: seq<Byte>, to: nat)
    requires |image| <= 8 && at + 8 <= |before| && to + 8 <= |before| && (at == to || at + 8 <= to || to + 8 <= at)
    requires after == before[..at] + image + before[at + |image|..]
    ensures |after| == |before|
    ensures after[to..to + 8] == if to == at then Overlay(before[at..at + 8], image) else before[to..to + 8]
  {
    var slot, found := Overlay(before[at..at + 8], image), after[to..to + 8];
    forall k | 0 <= k < 8
      ensures found[k] == if to == at then slot[k] else before[to..to + 8][k]
    {
      ByteAfterStore(before, after, at, image, to + k);
    }
  }

  lemma {:induction false} ByteAfterStore(before: seq<Byte>, after: seq<Byte>, at: nat, image: seq<Byte>, k: nat)
    requires at + |image| <= |before| && k < |before| && after == before[..at] + image + before[at + |image|..]
    ensures |after| == |before| && after[k] == if at <= k < at + |image| then image[k - at] else before[k]
  {
  }

  lemma {:induction false} SlotsAfterStore(before: seq<Byte>, after: seq<Byte>, count: nat, i: nat, image: seq<Byte>)
    requires |before| == 8 * count && i < count && |image| <= 8
    requires after == before[..8 * i] + image + before[8 * i + |image|..]
    ensures var slots := SlotsIn(before, count);
            |after| == |before| && SlotsIn(after, count) == slots[i := Overlay(slots[i], image)]
  {
    forall j | 0 <= j < count
      ensures SlotsIn(after, count)[j] == SlotsIn(before, count)[i := Overlay(SlotsIn(before, count)[i], image)][j]
    {
      SlotAfterStore(before, after, count, i, image, j);
    }
  }

  /** The slots of an argument block; the pointer table behind them is not shown. */
  class Arguments {
    const order: Order
    const count: nat
    const data: array<Byte>

    constructor (order: Order, count: nat)
      ensures Valid() && this.order == order && this.count == count && fresh(data)
    {
      this.order := order;
      this.count := count;
      this.data := new Byte[8 * count];
    }

    predicate Valid() {
      data.Length == 8 * count
    }

    ghost function Block(): (r: seq<Slot>)
      requires Valid()
      reads data
      ensures |r| == count
    {
      SlotsIn(data[..], count)
    }

    /** slot[i].member = value. */
    method Store(i: nat, image: seq<Byte>)
      requires Valid() && i < count && |image| <= 8
      modifies data
      ensures Block() == old(Block())[i := Overlay(old(Block())[i], image)]
    {
      ghost var was := data[..];
      Views.Poke(data, 8 * i, image);
      SlotsAfterStore(was, data[..], count, i, image);
    }

    /** arguments_set_*: the XS conversion of the Perl value, then the store. */
    method Set(i: nat, t: IntType, value: PerlInt)
      requires Valid() && i < count && 0 < t.bytes <= 8
      modifies data
      ensures Block() == old(Block())[i := Overlay(old(Block())[i], StoreInt(order, t, ToC(t, value)))]
    {
      Store(i, StoreInt(order, t, ToC(t, value)));
    }

    /** arguments_get_*. */
    method Get(i: nat, t: IntType) returns (value: int)
      requires Valid() && i < count && 0 < t.bytes <= 8
      ensures value == LoadInt(order, t, Block()[i][..t.bytes])
    {
      ghost var slot := Block()[i];
      var at := 8 * i;
      var image := data[at..at + t.bytes];
      assert image == slot[..t.bytes];
      value := LoadInt(order, t, image);
    }

    /** What a handler does through the API. */
    method Handler(writes: seq<Write>)
      requires Valid() && AllFit(writes, count)
      modifies data
      ensures Block() == Apply(old(Block()), writes)
    {
      var n := 0;
      while n < |writes|
        invariant 0 <= n <= |writes|
        invariant Block() == Apply(old(Block()), writes[..n])
      {
        Store(writes[n].slot, writes[n].image);
        assert writes[..n + 1][..n] == writes[..n];
        n := n + 1;
      }
      assert writes[..n] == writes;
    }

    /** The argument-in loop's stores, with the slot index it keeps. */
    method FillIn(fills: seq<Fill>)
      requires Valid() && Sound(fills) && count == |Expand(Types(fills))|
      modifies data
      ensures AllFit(Writes(fills, 0, |fills|), count)
      ensures Block() == Apply(old(Block()), Writes(fills, 0, |fills|))
    {
      var i, k := 0, 0;
      ghost var block := Block();
      while k < |fills|
        invariant 0 <= k <= |fills| && i == SlotOf(fills, k)
        invariant AllFit(Writes(fills, 0, k), count) && Block() == Apply(block, Writes(fills, 0, k))
      {
        i := FillInAt(fills, i, k, block);
        k := k + 1;
      }
    }

    /** Its body for argument k. */
    method FillInAt(fills: seq<Fill>, i: nat, k: nat, ghost block: seq<Slot>) returns (next: nat)
      requires Valid() && Sound(fills) && count == |Expand(Types(fills))| == |block|
      requires k < |fills| && i == SlotOf(fills, k)
      requires AllFit(Writes(fills, 0, k), count) && Block() == Apply(block, Writes(fills, 0, k))
      modifies data
      ensures next == SlotOf(fills, k + 1)
      ensures AllFit(Writes(fills, 0, k + 1), count) && Block() == Apply(block, Writes(fills, 0, k + 1))
    {
      WritesFit(fills, 0, k + 1);
      ExpandAt(Types(fills), k, 0);
      OffsetStep(Types(fills), k);
      Argument(fills[k], i);
      ApplyConcat(block, Writes(fills, 0, k), WritesAt(fills, k));
      next := i + 1 + Skip(fills[k].ty);
    }

    method Argument(fill: Fill, i: nat)
      requires Valid() && AllFit(fill.api, count) && i < count && (fill.own.Some? ==> |fill.own.value| <= 8)
      modifies data
      ensures AllFit(fill.api + OwnWrite(fill, i), count)
      ensures Block() == Apply(old(Block()), fill.api + OwnWrite(fill, i))
    {
      Handler(fill.api);
      if fill.own.Some? {
        Store(i, fill.own.value);
        assert (fill.api + OwnWrite(fill, i))[..|fill.api|] == fill.api;
      } else {
        assert fill.api + OwnWrite(fill, i) == fill.api;
      }
    }
  }

  // ---- The arguments_* functions ----

  /** arguments_set_*, with MY_CXT.current_argv: it dies with "Not in custom type handler" when there
      is no block. */
  method ArgumentsSet(argv: Arguments?, i: int, t: IntType, value: PerlInt) returns (died: bool)
    requires argv != null ==> argv.Valid() && 0 <= i < argv.count && 0 < t.bytes <= 8
    modifies if argv == null then {} else {argv.data}
    ensures died <==> argv == null
    ensures argv != null ==>
              var image := StoreInt(argv.order, t, ToC(t, value));
              argv.Block() == old(argv.Block())[i := Overlay(old(argv.Block())[i], image)]
  {
    if argv == null {
      return true;
    }
    argv.Set(i, t, value);
    died := false;
  }

  /** arguments_get_*. */
  method ArgumentsGet(argv: Arguments?, i: int, t: IntType) returns (died: bool, value: int)
    requires argv != null ==> argv.Valid() && 0 <= i < argv.count && 0 < t.bytes <= 8
    ensures died <==> argv == null
    ensures argv != null ==> value == LoadInt(argv.order, t, argv.Block()[i][..t.bytes])
  {
    if argv == null {
      return true, 0;
    }
    value := argv.Get(i, t);
    died := false;
  }
}
