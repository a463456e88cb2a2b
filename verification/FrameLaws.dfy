/** The frame handed to libffi: the layout of the argument block, and whether each entry of the
    pointer table leads to enough storage for the libffi type its slot was declared with. */
module FrameLaws {
  import opened TypeCodes
  import opened Signature
  import opened CallModel
  import opened HeapLaws
  import opened ArgvLaws
  import opened CodeLaws

  // ---- Layout of the buffer ----

  const HEADER := 8   // sizeof(ffi_pl_arguments): count and reserved
  const SLOT := 8     // sizeof(ffi_pl_argument)
  const ENTRY := 8  // sizeof(void*)

  function BufferSize(nargs: nat): nat {
    SLOT * nargs + ENTRY * nargs + HEADER
  }

  /** First byte of slot i, and of entry i of the pointer table, which starts at &slot[count]. */
  function SlotAt(i: nat): nat {
    HEADER + SLOT * i
  }

  function EntryAt(nargs: nat, i: nat): nat {
    SlotAt(nargs) + ENTRY * i
  }

  /** Byte k of the buffer belongs to the header or to a slot or a table entry, and to just one. */
  lemma {:induction false} BufferIsPartitioned(nargs: nat, k: nat)
    requires k < BufferSize(nargs)
    ensures var slot, entry := (k - HEADER) / SLOT, (k - HEADER) / ENTRY - nargs;
            || k < HEADER
            || (0 <= slot < nargs && InSlot(k, slot) && SlotAt(slot) + SLOT <= EntryAt(nargs, 0))
            || (0 <= entry < nargs && InEntry(nargs, k, entry) && EntryAt(nargs, entry) + ENTRY <= BufferSize(nargs))
    ensures BufferSize(nargs) == 8 + 16 * nargs
    ensures nargs > 0 ==> EntryAt(nargs, nargs - 1) + ENTRY == BufferSize(nargs)
    ensures forall i, j :: 0 <= i < nargs && 0 <= j < nargs && InSlot(k, i) && InSlot(k, j) ==> i == j
    ensures forall i, j :: 0 <= i < nargs && 0 <= j < nargs && InEntry(nargs, k, i) && InEntry(nargs, k, j) ==> i == j
    ensures forall i, j :: 0 <= i < nargs && 0 <= j < nargs && InSlot(k, i) ==> !InEntry(nargs, k, j) && k >= HEADER
    ensures forall i :: 0 <= i < nargs && InEntry(nargs, k, i) ==> k >= HEADER
  {
  }

  predicate InSlot(k: nat, i: nat) {
    SlotAt(i) <= k < SlotAt(i) + SLOT
  }

  predicate InEntry(nargs: nat, k: nat, i: nat) {
    EntryAt(nargs, i) <= k < EntryAt(nargs, i) + ENTRY
  }

  // ---- Targets ----

  /** The code the argument-in switch sees. */
  function Stripped(code: Code): Code {
    if IsCustom(code) then Basis(code) else code
  }

  function FirstTarget(p: Platform, a: Arg, slot: nat): Target {
    if IsCustom(a.ty.code) && Converted(a).None? then Slot(slot) else TargetOf(p, Stripped(a.ty.code), slot)
  }

  /** The pointer table after k arguments. */
  function Targets(p: Platform, c: Call, k: nat): seq<Target>
    requires k <= |c.args|
  {
    if k == 0 then []
    else
      var a := c.args[k - 1];
      Targets(p, c, k - 1) + ([FirstTarget(p, a, SlotOf(c, k - 1))] +
          SlotTargets(SlotOf(c, k - 1) + 1, Slots(a.ty) - 1))
  }

  lemma {:induction false} StoreTargets(p: Platform, code: Code, a: Arg, v: Value, slot: nat, f: Frame)
    requires !StoreFails(code, a)
    ensures Store(p, code, a, v, slot, f).targets == f.targets + [TargetOf(p, code, slot)]
    ensures Store(p, code, a, v, slot, f).croaked == f.croaked
  {
    var now := if InKindOf(code) == InClosure then Lend(f.world.now, v, 1) else f.world.now;
    HeapAddsEffect(f.(world := f.world.(now := now), targets := f.targets + [TargetOf(p, code, slot)]),
        BlocksOf(p, code, a));
  }

  lemma {:induction false} InStepTargets(p: Platform, c: Call, b: Id, k: nat, f: Frame)
    requires k < |c.args| && !ArgFails(c.args[k]) && !f.croaked
    ensures var a := c.args[k];
            InStep(p, c, b, k, f).targets ==
              f.targets + ([FirstTarget(p, a, SlotOf(c, k))] + SlotTargets(SlotOf(c, k) + 1, Slots(a.ty) - 1))
  {
    var a := c.args[k];
    if IsCustom(a.ty.code) {
      if Converted(a).Some? {
        var sv := Converted(a).value;
        var g := f.(world := RunConvert(p, c, b, k, f.world));
        var kept := g.(world := g.world.(now := Keep(Bump(g.world.now, sv, 1), sv)));
        StoreTargets(p, Basis(a.ty.code), a, Scalar(sv), SlotOf(c, k), kept);
        assert InStep(p, c, b, k, f) == StoreConverted(p, a, sv, SlotOf(c, k), g);
      } else {
        assert SlotTargets(SlotOf(c, k), 1 + a.ty.skip) ==
            [Slot(SlotOf(c, k))] + SlotTargets(SlotOf(c, k) + 1, a.ty.skip);
      }
    } else {
      StoreTargets(p, a.ty.code, a, ValueOf(c, k), SlotOf(c, k), f);
    }
  }

  lemma {:induction false} InPrefixTargets(p: Platform, c: Call, b: Id, k: nat, f: Frame)
    requires k <= |c.args| && !Failed(c, k) && !f.croaked && f.targets == []
    ensures InPrefix(p, c, b, k, f).targets == Targets(p, c, k) && !InPrefix(p, c, b, k, f).croaked
  {
    if k > 0 {
      InPrefixTargets(p, c, b, k - 1, f);
      var g := InPrefix(p, c, b, k - 1, f);
      InStepTargets(p, c, b, k - 1, g);
      InStepCroaks(p, c, b, k - 1, g);
    }
  }

  lemma {:induction false} InStepCroaks(p: Platform, c: Call, b: Id, k: nat, f: Frame)
    requires k < |c.args| && !ArgFails(c.args[k]) && !f.croaked
    ensures !InStep(p, c, b, k, f).croaked
  {
    var a := c.args[k];
    if IsCustom(a.ty.code) {
      if Converted(a).Some? {
        var sv := Converted(a).value;
        var g := f.(world := RunConvert(p, c, b, k, f.world));
        StoreTargets(p, Basis(a.ty.code), a, Scalar(sv), SlotOf(c, k),
                     g.(world := g.world.(now := Keep(Bump(g.world.now, sv, 1), sv))));
      }
    } else {
      StoreTargets(p, a.ty.code, a, ValueOf(c, k), SlotOf(c, k), f);
    }
  }

  lemma {:induction false} TargetsLength(p: Platform, c: Call, k: nat)
    requires k <= |c.args|
    ensures |Targets(p, c, k)| == SlotOf(c, k)
  {
    if k > 0 {
      TargetsLength(p, c, k - 1);
      OffsetStep(Types(c.args), k - 1);
    }
  }

  lemma {:induction false} TargetsPrefix(p: Platform, c: Call, j: nat, k: nat)
    requires j <= k <= |c.args|
    ensures Targets(p, c, j) <= Targets(p, c, k)
  {
    if j < k {
      TargetsPrefix(p, c, j, k - 1);
    }
  }

  lemma {:induction false} TargetsAt(p: Platform, c: Call, k: nat, j: nat)
    requires k < |c.args| && j < Slots(c.args[k].ty)
    ensures SlotOf(c, k) + j < |Targets(p, c, |c.args|)|
    ensures Targets(p, c, |c.args|)[SlotOf(c, k) + j] ==
            if j == 0 then FirstTarget(p, c.args[k], SlotOf(c, k)) else Slot(SlotOf(c, k) + j)
  {
    TargetsLength(p, c, k);
    TargetsPrefix(p, c, k + 1, |c.args|);
    var group := [FirstTarget(p, c.args[k], SlotOf(c, k))] + SlotTargets(SlotOf(c, k) + 1, Slots(c.args[k].ty) - 1);
    assert Targets(p, c, k + 1) == Targets(p, c, k) + group;
    assert Targets(p, c, k + 1)[SlotOf(c, k) + j] == group[j];
  }

  /** Every native slot belongs to some argument. */
  lemma {:induction false} SlotHasArgument(types: seq<Type>, i: nat, n: nat) returns (k: nat, j: nat)
    requires n <= |types| && i < Offset(types, n)
    ensures k < n && j < Slots(types[k]) && i == Offset(types, k) + j
  {
    OffsetStep(types, n - 1);
    if i < Offset(types, n - 1) {
      k, j := SlotHasArgument(types, i, n - 1);
    } else {
      k, j := n - 1, i - Offset(types, n - 1);
    }
  }

  /** Bytes of storage behind a pointer table entry; a record body is as long as its Perl string. */
  function Storage(t: Target): nat
    requires !t.RecordBody?
  {
    match t
    case Slot(_) => SLOT
    case Block(n) => n
  }

  predicate IsRecordValue(t: Type) {
    Stripped(t.code) == RECORD_VALUE
  }

  /** An argument type that libffi accepted; a record by value needs its meta for that. */
  predicate Declared(t: Type) {
    IsArgument(t.code) && ToLibffi(t).Some?
  }

  /** The entry leads to as many bytes as libffi will read. */
  predicate Wide(p: Platform, t: Type, target: Target)
    requires !target.RecordBody?
  {
    ToLibffi(t).Some? && Storage(target) >= FfiWidth(ToLibffi(t).value, p.longDouble)
  }

  /** Custom types whose basis does not fit a slot. */
  predicate Outgrows(p: Platform, t: Type) {
    IsCustom(t.code) &&
    ((Basis(t.code) == LONG_DOUBLE && p.longDouble > SLOT) || (Basis(t.code) == RECORD_VALUE && t.recordSize > SLOT))
  }

  /** Argument k leaves an 8-byte slot where libffi was told to expect more. */
  predicate Narrow(p: Platform, a: Arg) {
    Outgrows(p, a.ty) && (a.ty.skip > 0 || Converted(a).None?)
  }

  /** Declared widths of custom types: those of their bases. */
  lemma {:induction false} DeclaredWidth(p: Platform, t: Type)
    requires Declared(t) && IsCustom(t.code)
    ensures SLOT >= FfiWidth(ToLibffi(t).value, p.longDouble) <==> !Outgrows(p, t)
  {
    StrippedKinds(t.code);
    CustomAgreesWithBasis(t, Basis(t.code));
    BasisWidth(p, t.(code := Basis(t.code)));
  }

  lemma {:induction false} BasisWidth(p: Platform, t: Type)
    requires IsScalar(t.code) && IsCustomizable(t.code) && ToLibffi(t).Some?
    ensures SLOT >= FfiWidth(ToLibffi(t).value, p.longDouble) <==>
            !(t.code == LONG_DOUBLE && p.longDouble > SLOT) && !(t.code == RECORD_VALUE && t.recordSize > SLOT)
  {
  }

  lemma {:induction false} ScalarWidthFits(p: Platform, t: Type, slot: nat)
    requires IsScalar(t.code) && t.code != RECORD_VALUE
    ensures ToLibffi(t).Some? && !TargetOf(p, t.code, slot).RecordBody?
    ensures Storage(TargetOf(p, t.code, slot)) >= FfiWidth(ToLibffi(t).value, p.longDouble)
  {
  }

  lemma {:induction false} ShapedWidthFits(p: Platform, t: Type, slot: nat)
    requires IsArgument(t.code) && (Shape(t.code) == SHAPE_POINTER || Shape(t.code) == SHAPE_ARRAY ||
             Shape(t.code) == SHAPE_OBJECT)
    ensures ToLibffi(t).Some? && TargetOf(p, t.code, slot) == Slot(slot)
    ensures SLOT >= FfiWidth(ToLibffi(t).value, p.longDouble)
  {
  }

  lemma {:induction false} StrippedKinds(code: Code)
    requires IsArgument(code)
    ensures IsCustom(code) ==>
              IsScalar(Basis(code)) && IsCustomizable(Basis(code)) && code == SHAPE_CUSTOM | Basis(code)
    ensures !IsCustom(code) && !IsScalar(code) ==>
              Shape(code) == SHAPE_POINTER || Shape(code) == SHAPE_ARRAY || Shape(code) == SHAPE_OBJECT
  {
    if IsCustom(code) {
      CustomBits(code);
    }
  }

  lemma {:induction false} DeclaredWidthFits(p: Platform, t: Type, slot: nat)
    requires IsArgument(t.code) && !IsRecordValue(t)
    ensures ToLibffi(t).Some? && !TargetOf(p, Stripped(t.code), slot).RecordBody?
    ensures Storage(TargetOf(p, Stripped(t.code), slot)) >= FfiWidth(ToLibffi(t).value, p.longDouble)
  {
    StrippedKinds(t.code);
    if IsCustom(t.code) {
      CustomAgreesWithBasis(t, Basis(t.code));
      ScalarWidthFits(p, t.(code := Basis(t.code)), slot);
    } else if IsScalar(t.code) {
      ScalarWidthFits(p, t, slot);
    } else {
      ShapedWidthFits(p, t, slot);
    }
  }

  /** The first entry of an argument leads to a record body or to enough bytes, unless the handler
      of a type that outgrows a slot returned the empty list; and so do the other entries of a
      custom type, unless it outgrows a slot. */
  lemma {:induction false} WideAt(p: Platform, a: Arg, slot: nat)
    requires Declared(a.ty)
    ensures FirstTarget(p, a, slot).RecordBody? <==> IsRecordValue(a.ty) && !(IsCustom(a.ty.code) && Converted(a).None?)
    ensures !FirstTarget(p, a, slot).RecordBody? ==>
              (Wide(p, a.ty, FirstTarget(p, a, slot)) <==> !(Outgrows(p, a.ty) && Converted(a).None?))
    ensures IsCustom(a.ty.code) ==> (Wide(p, a.ty, Slot(slot)) <==> !Outgrows(p, a.ty))
  {
    BodiesAreRecords(p, Stripped(a.ty.code), slot);
    if IsCustom(a.ty.code) {
      DeclaredWidth(p, a.ty);
    }
    if !IsRecordValue(a.ty) {
      DeclaredWidthFits(p, a.ty, slot);
    }
  }

  lemma {:induction false} BodiesAreRecords(p: Platform, code: Code, slot: nat)
    ensures TargetOf(p, code, slot).RecordBody? <==> code == RECORD_VALUE
  {
  }

  ghost predicate AllWide(p: Platform, sig: seq<Type>, targets: seq<Target>)
    requires |targets| == |sig|
  {
    forall i :: 0 <= i < |sig| && !targets[i].RecordBody? ==> Wide(p, sig[i], targets[i])
  }

  lemma {:induction false} NarrowShows(p: Platform, c: Call, k: nat)
    requires k < |c.args| && Declared(c.args[k].ty) && Narrow(p, c.args[k])
    ensures var sig, targets := Expand(Types(c.args)), Targets(p, c, |c.args|);
            |targets| == |sig| && !AllWide(p, sig, targets)
  {
    var types, targets := Types(c.args), Targets(p, c, |c.args|);
    TargetsLength(p, c, |c.args|);
    OffsetEnd(types);
    var j := if Converted(c.args[k]).None? then 0 else 1;
    ExpandAt(types, k, j);
    var i := SlotOf(c, k) + j;
    NarrowEntry(p, c, k, j, i);
    assert Expand(types)[i] == c.args[k].ty && !Wide(p, c.args[k].ty, targets[i]);
  }

  /** The entry that is too small: the first one after an empty list, else the second. */
  lemma {:induction false} NarrowEntry(p: Platform, c: Call, k: nat, j: nat, i: nat)
    requires k < |c.args| && Declared(c.args[k].ty) && Narrow(p, c.args[k])
    requires j == (if Converted(c.args[k]).None? then 0 else 1) && i == SlotOf(c, k) + j
    ensures var targets := Targets(p, c, |c.args|);
            i < |targets| && !targets[i].RecordBody? && !Wide(p, c.args[k].ty, targets[i])
  {
    TargetsAt(p, c, k, j);
    WideAt(p, c.args[k], i);
    assert Targets(p, c, |c.args|)[i] == Slot(i);
  }

  lemma {:induction false} WideUnlessNarrow(p: Platform, c: Call, k: nat, j: nat, t: Type, target: Target)
    requires k < |c.args| && j < Slots(c.args[k].ty) && t == c.args[k].ty
    requires SlotOf(c, k) + j < |Targets(p, c, |c.args|)| && target == Targets(p, c, |c.args|)[SlotOf(c, k) + j]
    requires Declared(t) && !target.RecordBody? && !Narrow(p, c.args[k])
    ensures Wide(p, t, target)
  {
    TargetsAt(p, c, k, j);
    WideAt(p, c.args[k], SlotOf(c, k));
    WideAt(p, c.args[k], SlotOf(c, k) + j);
  }

  lemma {:induction false} WideWhenNotNarrow(p: Platform, c: Call, i: nat, t: Type, target: Target)
    requires i < |Expand(Types(c.args))| == |Targets(p, c, |c.args|)|
    requires t == Expand(Types(c.args))[i] && target == Targets(p, c, |c.args|)[i] && !target.RecordBody?
    requires forall k :: 0 <= k < |c.args| ==> Declared(c.args[k].ty) && !Narrow(p, c.args[k])
    ensures Wide(p, t, target)
  {
    var k, j := ArgumentOfSlot(c, i);
    WideUnlessNarrow(p, c, k, j, t, target);
  }

  lemma {:induction false} ArgumentOfSlot(c: Call, i: nat) returns (k: nat, j: nat)
    requires i < |Expand(Types(c.args))|
    ensures k < |c.args| && j < Slots(c.args[k].ty) && i == SlotOf(c, k) + j
    ensures Expand(Types(c.args))[i] == c.args[k].ty
  {
    var types := Types(c.args);
    OffsetEnd(types);
    k, j := SlotHasArgument(types, i, |types|);
    ExpandAt(types, k, j);
  }

  /** The frame at the foreign call: the pointer table has an entry for every native slot, and every
      entry leads to a record body or to at least the bytes libffi will read there, if and only if
      no custom type over a long double or a record wider than 8 bytes spans several slots or had
      its handler return the empty list. */
  lemma {:induction false} FrameAtForeignCall(p: Platform, c: Call, w: World)
    requires Bounded(w.now) && !Failed(c, |c.args|)
    requires forall k :: 0 <= k < |c.args| ==> Declared(c.args[k].ty)
    ensures var sig, f := Expand(Types(c.args)), InPrefix(p, c, BlockOf(p, c, w), |c.args|, Enter(p, c, w));
            && |f.targets| == |sig|
            && (AllWide(p, sig, f.targets) <==> forall k :: 0 <= k < |c.args| ==> !Narrow(p, c.args[k]))
  {
    var sig := Expand(Types(c.args));
    EnterArgv(p, c, w);
    InPrefixTargets(p, c, BlockOf(p, c, w), |c.args|, Enter(p, c, w));
    TargetsLength(p, c, |c.args|);
    OffsetEnd(Types(c.args));
    var targets := Targets(p, c, |c.args|);
    if k :| 0 <= k < |c.args| && Narrow(p, c.args[k]) {
      NarrowShows(p, c, k);
    } else {
      forall i | 0 <= i < |sig| && !targets[i].RecordBody?
        ensures Wide(p, sig[i], targets[i])
      {
        WideWhenNotNarrow(p, c, i, sig[i], targets[i]);
      }
    }
  }

  /** A record body is at the entry exactly of the first slot of a record passed by value whose
      conversion, if any, gave a value. */
  lemma {:induction false} BodiesInFrame(p: Platform, c: Call, k: nat, j: nat)
    requires k < |c.args| && j < Slots(c.args[k].ty) && Declared(c.args[k].ty)
    ensures SlotOf(c, k) + j < |Targets(p, c, |c.args|)|
    ensures var a := c.args[k];
            Targets(p, c, |c.args|)[SlotOf(c, k) + j].RecordBody? <==>
            j == 0 && IsRecordValue(a.ty) && !(IsCustom(a.ty.code) && Converted(a).None?)
  {
    TargetsAt(p, c, k, j);
    WideAt(p, c.args[k], SlotOf(c, k));
  }

  /** Values too large for a slot by the bits of their type: long doubles and complex numbers. */
  predicate IsBoxed(code: Code) {
    Shape(code) != SHAPE_POINTER && Shape(code) != SHAPE_ARRAY &&
    (Base(code) == BASE_COMPLEX || (Base(code) == BASE_FLOAT && SizeField(code) == 16))
  }

  /** Every entry that leads to a slot leads to its own, so no two share one; it leads to storage of its own,
      just as large as the declared type, at the first slot of such a value. */
  lemma {:induction false} EntriesAreApart(p: Platform, c: Call, k: nat, j: nat)
    requires k < |c.args| && j < Slots(c.args[k].ty) && Declared(c.args[k].ty)
    ensures SlotOf(c, k) + j < |Targets(p, c, |c.args|)|
    ensures var a, i := c.args[k], SlotOf(c, k) + j; var target := Targets(p, c, |c.args|)[i];
            var value := j == 0 && !(IsCustom(a.ty.code) && a.ty.convert && a.reply == None);
            target == if value && IsBoxed(a.ty.code) then Block(FfiWidth(ToLibffi(a.ty).value, p.longDouble))
                      else if value && Stem(a.ty.code) == RECORD_VALUE then RecordBody
                      else Slot(i)
  {
    TargetsAt(p, c, k, j);
    if j == 0 {
      TargetBits(p, c.args[k].ty, SlotOf(c, k));
    }
  }

  lemma {:induction false} TargetBits(p: Platform, t: Type, slot: nat)
    requires Declared(t)
    ensures TargetOf(p, Stripped(t.code), slot) ==
            if IsBoxed(t.code) then Block(FfiWidth(ToLibffi(t).value, p.longDouble))
            else if Stem(t.code) == RECORD_VALUE then RecordBody
            else Slot(slot)
  {
    StrippedKinds(t.code);
    if IsCustom(t.code) {
      CustomBits(t.code);
      CustomAgreesWithBasis(t, Basis(t.code));
      ScalarTarget(p, t.(code := Basis(t.code)), slot);
    } else if IsScalar(t.code) {
      ScalarBits(t.code);
      ScalarTarget(p, t, slot);
    } else {
      ShapedWidthFits(p, t, slot);
      ShapedBits(t.code);
    }
  }

  lemma {:induction false} ScalarTarget(p: Platform, t: Type, slot: nat)
    requires IsScalar(t.code) && ToLibffi(t).Some?
    ensures TargetOf(p, t.code, slot) ==
            if IsBoxed(t.code) then Block(FfiWidth(ToLibffi(t).value, p.longDouble))
            else if t.code == RECORD_VALUE then RecordBody
            else Slot(slot)
  {
    UnitBytesIsField(t.code);
  }

  lemma {:induction false} ShapedBits(code: Code)
    requires IsArgument(code) && !IsScalar(code) && !IsCustom(code)
    ensures !IsBoxed(code) && Stem(code) != RECORD_VALUE
  {
  }

  // ---- Storage behind the table ----

  /** Entries that lead to storage of their own. */
  function BlockTargets(targets: seq<Target>): nat {
    if targets == [] then 0
    else BlockTargets(targets[..|targets| - 1]) + if targets[|targets| - 1].Block? then 1 else 0
  }

  /** What the pointers and arrays among the first k arguments take, by their Perl values. */
  function Indirect(c: Call, k: nat): nat
    requires k <= |c.args|
  {
    if k == 0 then 0
    else
      var a := c.args[k - 1];
      Indirect(c, k - 1) +
        if Shape(a.ty.code) == SHAPE_POINTER || Shape(a.ty.code) == SHAPE_ARRAY then a.storage else 0
  }

  lemma {:induction false} BlockTargetsThen(first: seq<Target>, later: seq<Target>)
    ensures BlockTargets(first + later) == BlockTargets(first) + BlockTargets(later)
  {
    if later == [] {
      assert first + later == first;
    } else {
      var both := first + later;
      assert both[..|both| - 1] == first + later[..|later| - 1];
      BlockTargetsThen(first, later[..|later| - 1]);
    }
  }

  lemma {:induction false} SlotsAreNoBlocks(slot: nat, n: nat)
    ensures BlockTargets(SlotTargets(slot, n)) == 0
  {
    if n > 0 {
      SlotsAreNoBlocks(slot, n - 1);
      assert SlotTargets(slot, n)[..n - 1] == SlotTargets(slot, n - 1);
    }
  }

  lemma {:induction false} HeapAddsOwn(f: Frame, n: nat)
    ensures |HeapAdds(f, n).own| == |f.own| + n
  {
    if n > 0 {
      HeapAddsOwn(f, n - 1);
    }
  }

  lemma {:induction false} StoreOwn(p: Platform, code: Code, a: Arg, v: Value, slot: nat, f: Frame)
    requires !StoreFails(code, a)
    ensures |Store(p, code, a, v, slot, f).own| == |f.own| + BlocksOf(p, code, a)
  {
    var now := if InKindOf(code) == InClosure then Lend(f.world.now, v, 1) else f.world.now;
    HeapAddsOwn(f.(world := f.world.(now := now), targets := f.targets + [TargetOf(p, code, slot)]),
                BlocksOf(p, code, a));
  }

  /** Blocks one argument adds to the list. */
  function AddedBlocks(p: Platform, a: Arg): nat {
    if IsCustom(a.ty.code) && Converted(a).None? then 0 else BlocksOf(p, Stripped(a.ty.code), a)
  }

  lemma {:induction false} InStepOwn(p: Platform, c: Call, b: Id, k: nat, f: Frame)
    requires k < |c.args| && !ArgFails(c.args[k]) && !f.croaked
    ensures |InStep(p, c, b, k, f).own| == |f.own| + AddedBlocks(p, c.args[k])
  {
    var a := c.args[k];
    if !IsCustom(a.ty.code) {
      StoreOwn(p, a.ty.code, a, ValueOf(c, k), SlotOf(c, k), f);
    } else if Converted(a).Some? {
      var sv := Converted(a).value;
      var g := f.(world := RunConvert(p, c, b, k, f.world));
      var kept := g.(world := g.world.(now := Keep(Bump(g.world.now, sv, 1), sv)));
      StoreOwn(p, Basis(a.ty.code), a, Scalar(sv), SlotOf(c, k), kept);
      assert InStep(p, c, b, k, f) == StoreConverted(p, a, sv, SlotOf(c, k), g);
    }
  }

  /** A custom type has no storage but its basis's. */
  lemma {:induction false} AddedIsBlocks(p: Platform, a: Arg, slot: nat)
    requires IsArgument(a.ty.code)
    ensures AddedBlocks(p, a) ==
            (if p.alloca || !FirstTarget(p, a, slot).Block? then 0 else 1) +
            if Shape(a.ty.code) == SHAPE_POINTER || Shape(a.ty.code) == SHAPE_ARRAY then a.storage else 0
  {
    ArmBits(a.ty.code);
    if IsCustom(a.ty.code) {
      ArmBits(Basis(a.ty.code));
    }
  }

  /** The memory of a call at its foreign call: its argument block, storage for a record it returns by
      value and for every entry of the table that needs more than a slot, unless both come from the C
      stack, and what its pointer and array arguments asked for; nothing else. */
  lemma {:induction false} StorageAtForeignCall(p: Platform, c: Call, w: World, k: nat)
    requires Bounded(w.now) && k <= |c.args| && !Failed(c, k)
    requires forall j :: 0 <= j < |c.args| ==> IsArgument(c.args[j].ty.code)
    ensures var f := InPrefix(p, c, BlockOf(p, c, w), k, Enter(p, c, w));
            var result := if ReturnsRecord(c.ret.code) then 1 else 0;
            |f.own| == 1 + Indirect(c, k) + if p.alloca then 0 else result + BlockTargets(f.targets)
  {
    var b, f0 := BlockOf(p, c, w), Enter(p, c, w);
    EnterArgv(p, c, w);
    if k == 0 {
      HeapAddsOwn(Frame(w, [], [], false), ResultBlocks(p, c) + 1);
      RecordReturns(c.ret.code);
    } else {
      StorageAtForeignCall(p, c, w, k - 1);
      StorageOfArgument(p, c, b, k - 1, f0);
    }
  }

  /** What one argument adds. */
  lemma {:induction false} StorageOfArgument(p: Platform, c: Call, b: Id, k: nat, f0: Frame)
    requires k < |c.args| && !Failed(c, k + 1) && !f0.croaked && f0.targets == [] && IsArgument(c.args[k].ty.code)
    ensures var f, g := InPrefix(p, c, b, k, f0), InPrefix(p, c, b, k + 1, f0);
            |g.own| == |f.own| + (Indirect(c, k + 1) - Indirect(c, k)) +
              if p.alloca then 0 else BlockTargets(g.targets) - BlockTargets(f.targets)
  {
    var f, a, slot := InPrefix(p, c, b, k, f0), c.args[k], SlotOf(c, k);
    InPrefixTargets(p, c, b, k, f0);
    InPrefixTargets(p, c, b, k + 1, f0);
    InStepOwn(p, c, b, k, f);
    assert InPrefix(p, c, b, k + 1, f0) == InStep(p, c, b, k, f);
    AddedIsBlocks(p, a, slot);
    TargetsGrow(p, c, k);
  }

  lemma {:induction false} TargetsGrow(p: Platform, c: Call, k: nat)
    requires k < |c.args|
    ensures BlockTargets(Targets(p, c, k + 1)) ==
            BlockTargets(Targets(p, c, k)) + if FirstTarget(p, c.args[k], SlotOf(c, k)).Block? then 1 else 0
  {
    var a, slot := c.args[k], SlotOf(c, k);
    var first, rest := FirstTarget(p, a, slot), SlotTargets(slot + 1, Slots(a.ty) - 1);
    GroupBlocks(first, slot + 1, Slots(a.ty) - 1);
    BlockTargetsThen(Targets(p, c, k), [first] + rest);
  }

  lemma {:induction false} GroupBlocks(first: Target, slot: nat, n: nat)
    ensures BlockTargets([first] + SlotTargets(slot, n)) == if first.Block? then 1 else 0
  {
    SlotsAreNoBlocks(slot, n);
    BlockTargetsThen([first], SlotTargets(slot, n));
    assert [first][..0] == [] && BlockTargets([]) == 0;
  }

  /** Return types passed by value, with or without a handler. */
  predicate ReturnsRecord(code: Code) {
    Stem(code) == RECORD_VALUE && (Shape(code) == SHAPE_SCALAR || IsCustom(code))
  }

  lemma {:induction false} RecordReturns(code: Code)
    ensures IsRecordReturn(code) <==> ReturnsRecord(code)
  {
  }
}
