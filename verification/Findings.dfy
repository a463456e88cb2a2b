/** Concrete calls on which the plain promises fail; the exact conditions are KeeperStackAfterCall,
    ReferencesAfterCall, ApiInConvert, ApiInFinish, CurrentArgvAfterCall and FrameAtForeignCall. */
module Findings {
  import opened TypeCodes
  import opened Signature
  import opened CallModel
  import opened HeapLaws
  import opened ArgvLaws
  import opened KeeperEffects
  import opened KeeperLaws
  import opened EventLaws
  import opened LifetimeLaws
  import FrameLaws

  const VOID_TYPE := Type(VOID, 0, 0, false, 0, false, false, false)

  /** A custom type with a perl_to_native handler and `skip` extra slots. */
  function Custom(basis: Code, skip: nat): Type {
    Type(SHAPE_CUSTOM | basis, 0, 16, true, skip, true, false, false)
  }

  function CustomArg(ty: Type, code: seq<Action>, reply: Option<Sv>): Arg {
    Arg(ty, true, 0, code, reply, 0, [])
  }

  function SubCall(args: seq<Arg>, callbacks: seq<Action>): Call {
    Call(ViaSub, [], args, callbacks, map[], VOID_TYPE, [])
  }

  /** A call without arguments that does nothing. */
  const TRIVIAL := SubCall([], [])

  // ---- Empty lists ----

  /** f($buffer) with a pointer/size type in the manner of FFI::Platypus::Type::PointerSizeBuffer,
      whose perl_to_native ends in an arguments_set call and so returns the empty list. */
  const BUFFER_CALL := SubCall([CustomArg(Custom(OPAQUE, 1), [Api, Api], None)], [])

  /** g($x) with a converted argument, whose callback calls f($buffer). */
  const CALLING_BACK := SubCall([CustomArg(Custom(OPAQUE, 0), [], Some(7))], [Invoke(BUFFER_CALL)])

  lemma {:induction false} ApiOnly(code: seq<Action>, n: nat, sv: Sv)
    requires n <= |code| && forall j :: 0 <= j < |code| ==> code[j].Api?
    ensures CodeEffect(code, n) == NOTHING && CodeLeak(code, n, sv) == 0
  {
    if n > 0 {
      ApiOnly(code, n - 1, sv);
    }
  }

  lemma {:induction false} BufferConversion(sv: Sv)
    ensures !Failed(BUFFER_CALL, 1) && InEffect(BUFFER_CALL, 0, 1) == NOTHING && InLeak(BUFFER_CALL, 1, sv) == 0
  {
    var c, a := BUFFER_CALL, BUFFER_CALL.args[0];
    ApiOnly(a.code, |a.code|, sv);
    assert IsCustom(a.ty.code) && Basis(a.ty.code) == OPAQUE && !ArgFails(a);
    assert !Failed(c, 0) && !Failed(c, 1);
    assert InEffectAt(c, 0) == NOTHING && ConvertLeak(c, 0, sv) == 0 && FailingLeak(a, sv) == 0;
    assert InEffect(c, 0, 1) == Then(InEffect(c, 0, 0), InEffectAt(c, 0));
    assert InLeak(c, 1, sv) == InLeak(c, 0, sv) == 0;
  }

  lemma {:induction false} BufferPop(sv: Sv)
    ensures OutEffect(BUFFER_CALL, 0) == Effect(1, []) && OutLeak(BUFFER_CALL, 0, sv) == 0
  {
    var c, a := BUFFER_CALL, BUFFER_CALL.args[0];
    assert IsCustom(a.ty.code) && !PostRuns(a);
    assert PostEffect(c, 0) == NOTHING && PostLeak(c, 0, sv) == 0 && OutEffectAt(c, 0) == Effect(1, []);
    assert OutEffect(c, 0) == Then(OutEffect(c, 1), OutEffectAt(c, 0)) && OutEffect(c, 1) == NOTHING;
    assert OutLeak(c, 0, sv) == OutLeak(c, 1, sv) == 0;
  }

  lemma {:induction false} BufferCallFacts(sv: Sv)
    ensures CallEffect(BUFFER_CALL) == Effect(1, []) && CallLeak(BUFFER_CALL, sv) == 0
  {
    BufferConversion(sv);
    BufferPop(sv);
    ApiOnly(BUFFER_CALL.callbacks, 0, sv);
    assert !FinishRuns(BUFFER_CALL);
  }

  lemma {:induction false} CallingBackEffects()
    ensures !Failed(CALLING_BACK, 1) && InEffect(CALLING_BACK, 0, 1) == Effect(0, [7])
    ensures RoundEffect(CALLING_BACK, 0, 1) == Effect(0, [])
  {
    var c, a := CALLING_BACK, CALLING_BACK.args[0];
    assert IsCustom(a.ty.code) && Basis(a.ty.code) == OPAQUE && !ArgFails(a);
    assert !Failed(c, 0);
    assert CodeEffect(a.code, 0) == NOTHING;
    assert InEffectAt(c, 0) == Effect(0, [7]) && InEffect(c, 0, 0) == NOTHING;
    BufferCallFacts(7);
    assert c.callbacks[0] == Invoke(BUFFER_CALL) && CodeEffect(c.callbacks, 0) == NOTHING;
    assert CodeEffect(c.callbacks, 1) == Effect(1, []) && OutEffect(c, 1) == NOTHING;
  }

  lemma {:induction false} CallingBackLeaks(sv: Sv)
    ensures !Failed(CALLING_BACK, 1) && InLeak(CALLING_BACK, 1, sv) == 0 && Lent(CALLING_BACK, 1, sv) == 0
    ensures CodeLeak(CALLING_BACK.callbacks, 1, sv) == 0
  {
    var c, a := CALLING_BACK, CALLING_BACK.args[0];
    assert IsCustom(a.ty.code) && Basis(a.ty.code) == OPAQUE && !ArgFails(a) && a.ty.code != CLOSURE;
    assert !Failed(c, 0);
    assert CodeLeak(a.code, 0, sv) == 0;
    BufferCallFacts(sv);
    assert c.callbacks[0] == Invoke(BUFFER_CALL);
    assert InLeak(c, 0, sv) == 0 && CodeLeak(c.callbacks, 0, sv) == 0 && Lent(c, 0, sv) == 0;
  }

  /** The nested call pops the outer call's keeper: when g's callback returns, while g is still
      running, the value converted for g is off the stack and no longer referenced. */
  lemma {:induction false} NestedEmptyResultTakesKeeper(p: Platform, w: World)
    requires Bounded(w.now) && w.now.keepers == [] && w.now.count == map[]
    ensures InState(p, CALLING_BACK, w, 1).world.now.keepers == [7]
    ensures var t := OutState(p, CALLING_BACK, w, 1).now; t.keepers == [] && Count(t.count, 7) == 0
  {
    var c, b, f0 := CALLING_BACK, BlockOf(p, CALLING_BACK, w), Enter(p, CALLING_BACK, w);
    CallingBackEffects();
    EnterArgv(p, c, w);
    InPrefixKeepers(p, c, b, 0, 1, f0);
    RoundKeepers(p, c, b, 0, 1, f0);
    NothingUnaccounted(p, w);
  }

  /** The event where the callback gives control back finds it gone: the value is not alive from its
      conversion to its pop. */
  lemma {:induction false} ValueDiesInCallback(p: Platform, w: World)
    requires Bounded(w.now) && w.now.keepers == [] && w.now.count == map[]
    ensures var log := OutState(p, CALLING_BACK, w, 1).log;
            && log != [] && log[|log| - 1].what == Back
            && log[|log| - 1].at.keepers == [] && Count(log[|log| - 1].at.count, 7) == 0
    ensures !KeptThroughout(p, CALLING_BACK, w, 0) && !HeldThroughout(p, CALLING_BACK, w, 0, 7)
  {
    var c, b, v := CALLING_BACK, BlockOf(p, CALLING_BACK, w), OutState(p, CALLING_BACK, w, 1);
    NestedEmptyResultTakesKeeper(p, w);
    CallingBackEffects();
    assert v == RunForeign(p, c, b, InState(p, c, w, 1));
    assert !PostRuns(c.args[0]) && SpanEnd(p, c, w, 0) == v;
    EnterArgv(p, c, w);
    assert CodeEffect(c.args[0].code, 0) == NOTHING && CodeLeak(c.args[0].code, 0, 7) == 0;
    ConvertKeepers(p, c, b, 0, InState(p, c, w, 0).world, 7);
    assert Count(Before(p, c, w, 0).count, 7) == 0;
  }

  lemma {:induction false} NothingUnaccounted(p: Platform, w: World)
    requires Bounded(w.now) && w.now.keepers == [] && w.now.count == map[]
    ensures Unaccounted(OutState(p, CALLING_BACK, w, 1).now, 7) == 0
  {
    var c, b, f0 := CALLING_BACK, BlockOf(p, CALLING_BACK, w), Enter(p, CALLING_BACK, w);
    CallingBackLeaks(7);
    EnterArgv(p, c, w);
    InPrefixReferences(p, c, b, 1, f0, 7);
    ForeignKeepers(p, c, b, InState(p, c, w, 1), 7);
    assert Unaccounted(w.now, 7) == 0;
  }

  // ---- The arguments API after a nested call ----

  /** Two converted arguments; the first handler calls another function. */
  const TWO_HANDLERS := SubCall([CustomArg(Custom(OPAQUE, 0), [Invoke(TRIVIAL)], Some(1)),
                                CustomArg(Custom(OPAQUE, 0), [Api], Some(2))], [])

  /** The second handler of that call finds current_argv NULL: its arguments_* calls die. */
  lemma {:induction false} SecondHandlerLosesApi(p: Platform, w: World)
    requires Bounded(w.now)
    ensures InState(p, TWO_HANDLERS, w, 1).world.now.argv == None
  {
    var c, a := TWO_HANDLERS, TWO_HANDLERS.args[0];
    assert IsCustom(a.ty.code) && Basis(a.ty.code) == OPAQUE && !ArgFails(a);
    assert !Failed(c, 0) && !Failed(c, 1);
    assert ConvertRuns(a) && LastCall(a.code, 1) == Some(TRIVIAL);
    assert LastConvertCall(c, 1) == Some(TRIVIAL) && !Dangles(TRIVIAL);
    EnterArgv(p, c, w);
    InPrefixArgv(p, c, BlockOf(p, c, w), 1, Enter(p, c, w));
  }

  /** A handler that calls another function and then uses the API, with no other handler around. */
  const ONE_HANDLER := SubCall([CustomArg(Custom(OPAQUE, 0), [Invoke(TRIVIAL), Api], Some(2))], [])

  /** It starts with its own block current, and has lost it by the time it uses the API. */
  lemma {:induction false} OwnCallLosesApi(p: Platform, w: World)
    requires Bounded(w.now)
    ensures InConvert(p, ONE_HANDLER, w, 0, 0).argv == Some(BlockOf(p, ONE_HANDLER, w))
    ensures InConvert(p, ONE_HANDLER, w, 0, 1).argv != Some(BlockOf(p, ONE_HANDLER, w))
  {
    var c, a := ONE_HANDLER, ONE_HANDLER.args[0];
    assert LastConvertCall(c, 0) == None && LastCall(a.code, 0) == None && LastCall(a.code, 1) == Some(TRIVIAL);
    ApiInConvert(p, c, w, 0, 0);
    ApiInConvert(p, c, w, 0, 1);
  }

  /** The same in native_to_perl. */
  const ONE_FINISH := TRIVIAL.(ret := Type(SHAPE_CUSTOM | OPAQUE, 0, 0, false, 0, false, false, true),
                              finish := [Invoke(TRIVIAL), Api])

  lemma {:induction false} OwnCallLosesApiInFinish(p: Platform, w: World)
    requires Bounded(w.now)
    ensures FinishRuns(ONE_FINISH) && InFinish(p, ONE_FINISH, w, 0).argv == Some(BlockOf(p, ONE_FINISH, w))
    ensures InFinish(p, ONE_FINISH, w, 1).argv != Some(BlockOf(p, ONE_FINISH, w))
  {
    var code := ONE_FINISH.ret.code;
    assert IsCustom(code) && Basis(code) == OPAQUE && !IsRecordReturn(code) && code != RECORD | SHAPE_CUSTOM;
    assert LastCall(ONE_FINISH.finish, 0) == None && LastCall(ONE_FINISH.finish, 1) == Some(TRIVIAL);
    ApiInFinish(p, ONE_FINISH, w, 0);
    ApiInFinish(p, ONE_FINISH, w, 1);
  }

  // ---- Croaks ----

  /** An object argument of the wrong class. */
  const WRONG_CLASS := SubCall([Arg(Type(SHAPE_OBJECT | OPAQUE, 0, 0, false, 0, false, false, false),
                                   false, 0, [], None, 0, [])], [])

  /** After that croak current_argv names a freed block. */
  lemma {:induction false} CroakLeavesDanglingArgv(p: Platform, w: World)
    requires Bounded(w.now)
    ensures var f := RunCall(p, WRONG_CLASS, w);
            f.croaked && f.world.now.argv.Some? && f.world.now.argv.value !in f.world.now.live
  {
    var a := WRONG_CLASS.args[0];
    assert !IsCustom(a.ty.code) && InKindOf(a.ty.code) == InObject && ArgFails(a);
    assert Failed(WRONG_CLASS, 1) && !Failed(WRONG_CLASS, 0);
    assert LastConvertCall(WRONG_CLASS, 1) == None;
    RunCallArgv(p, WRONG_CLASS, w);
  }

  /** A converted argument that is no object of the record class its type passes by value. */
  const WRONG_RECORD := SubCall([CustomArg(Custom(RECORD_VALUE, 0), [], Some(5)).(instance := false)], [])

  /** Its croak leaves the value on the keeper stack, and two references to it that nobody will
      release: the keeper's and the conversion's own. */
  lemma {:induction false} CroakLeavesKeeper(p: Platform, w: World)
    ensures var t := RunCall(p, WRONG_RECORD, w).world.now;
            t.keepers == w.now.keepers + [5] && Count(t.count, 5) == Count(w.now.count, 5) + 2
  {
    var c, a := WRONG_RECORD, WRONG_RECORD.args[0];
    assert IsCustom(a.ty.code) && Basis(a.ty.code) == RECORD_VALUE && ArgFails(a) && a.ty.code != CLOSURE;
    assert !Failed(c, 0) && Failed(c, 1);
    assert CodeEffect(a.code, 0) == NOTHING && CodeLeak(a.code, 0, 5) == 0;
    assert InEffectAt(c, 0) == Effect(0, [5]) && InEffect(c, 0, 0) == NOTHING;
    assert InLeak(c, 0, 5) == 0 && Lent(c, 0, 5) == 0 && LentAt(c, 0, 5) == 0;
    assert ConvertLeak(c, 0, 5) == 0 && FailingLeak(a, 5) == 1;
    assert CallEffect(c) == Effect(0, [5]) && CallLeak(c, 5) == 1;
    RunCallKeepers(p, c, w, 5);
    assert (w.now.keepers + [5])[..|w.now.keepers|] == w.now.keepers;
  }

  // ---- Slots too small ----

  /** A custom type over long double that spans two slots. */
  const WIDE_LONG_DOUBLE := SubCall([CustomArg(Custom(LONG_DOUBLE, 1), [], Some(1))], [])

  /** With 16-byte long doubles its second slot is too small for what libffi reads there. */
  lemma {:induction false} WideLongDoubleIsNarrow(p: Platform, w: World)
    requires Bounded(w.now) && p.longDouble == 16
    ensures var f := InState(p, WIDE_LONG_DOUBLE, w, 1); var sig := Expand(Types(WIDE_LONG_DOUBLE.args));
            |f.targets| == |sig| && !FrameLaws.AllWide(p, sig, f.targets)
  {
    var a := WIDE_LONG_DOUBLE.args[0];
    assert IsCustom(a.ty.code) && Basis(a.ty.code) == LONG_DOUBLE && IsArgument(a.ty.code) && !ArgFails(a);
    assert !Failed(WIDE_LONG_DOUBLE, 0) && !Failed(WIDE_LONG_DOUBLE, 1);
    assert ToLibffi(a.ty) == Some(FfiLongDouble) && FrameLaws.Narrow(p, a);
    FrameLaws.FrameAtForeignCall(p, WIDE_LONG_DOUBLE, w);
  }

  /** A custom type over a 16-byte record by value whose handler returns the empty list. */
  const UNSET_RECORD := SubCall([CustomArg(Custom(RECORD_VALUE, 0), [], None)], [])

  /** Its entry leads to an 8-byte slot, where libffi reads 16 bytes. */
  lemma {:induction false} UnsetRecordIsNarrow(p: Platform, w: World)
    requires Bounded(w.now)
    ensures var f := InState(p, UNSET_RECORD, w, 1); var sig := Expand(Types(UNSET_RECORD.args));
            |f.targets| == |sig| && !FrameLaws.AllWide(p, sig, f.targets)
  {
    var a := UNSET_RECORD.args[0];
    assert IsCustom(a.ty.code) && Basis(a.ty.code) == RECORD_VALUE && IsArgument(a.ty.code) && !ArgFails(a);
    assert !Failed(UNSET_RECORD, 0) && !Failed(UNSET_RECORD, 1);
    assert ToLibffi(a.ty) == Some(FfiStruct(16)) && FrameLaws.Narrow(p, a);
    FrameLaws.FrameAtForeignCall(p, UNSET_RECORD, w);
  }
}
