/** MY_CXT.current_argv over every run: what it is after a call and what each handler sees. */
module ArgvLaws {
  import opened TypeCodes
  import opened CallModel
  import opened HeapLaws

  /** Argument k ends the call in ffi_pl_croak. */
  predicate ArgFails(a: Arg) {
    if IsCustom(a.ty.code) then Converted(a).Some? && StoreFails(Basis(a.ty.code), a) else StoreFails(a.ty.code, a)
  }

  /** One of the first k arguments does. */
  predicate Failed(c: Call, k: nat)
    requires k <= |c.args|
  {
    k > 0 && (Failed(c, k - 1) || ArgFails(c.args[k - 1]))
  }

  /** Whether the handlers of an argument, or of the return type, run at all. */
  predicate ConvertRuns(a: Arg) {
    IsCustom(a.ty.code) && a.ty.convert
  }

  predicate PostRuns(a: Arg) {
    OutKindOf(a.ty.code) == OutCustom && a.ty.post
  }

  predicate FinishRuns(c: Call) {
    ExitOf(VariantOf(c.style, c.ret.code), c.ret.code) == ExitHandler && c.ret.back
  }

  /** The last nested call among the first n actions. */
  function LastCall(code: seq<Action>, n: nat): (r: Option<Call>)
    requires n <= |code|
    ensures r.Some? ==> (code decreases to r.value)
  {
    if n == 0 then None
    else
      var action := code[n - 1];
      if action.Api? then LastCall(code, n - 1)
      else
        assert (code decreases to action) && (action decreases to action.call);
        Some(action.call)
  }

  /** The last nested call made by the perl_to_native handlers the loop reaches among its first k arguments. */
  function LastConvertCall(c: Call, k: nat): (r: Option<Call>)
    requires k <= |c.args|
    ensures r.Some? ==> (c decreases to r.value)
  {
    if k == 0 then None
    else if Failed(c, k - 1) then LastConvertCall(c, k - 1)
    else
      var code := if ConvertRuns(c.args[k - 1]) then c.args[k - 1].code else [];
      assert c decreases to c.args[k - 1].code;
      var last := LastCall(code, |code|);
      if last.Some? then last else LastConvertCall(c, k - 1)
  }

  /** The last nested call made by the post handlers of arguments k and up. */
  function LastPostCall(c: Call, k: nat): Option<Call>
    requires k <= |c.args|
    decreases |c.args| - k
  {
    if k == |c.args| then None
    else
      var code := if PostRuns(c.args[k]) then c.args[k].after else [];
      var last := LastCall(code, |code|);
      if last.Some? then last else LastPostCall(c, k + 1)
  }

  /** The call croaks, and the last nested call its handlers had made before that, if any, did
      leave current_argv dangling too. */
  predicate Dangles(c: Call)
    decreases c
  {
    Failed(c, |c.args|) &&
    (LastConvertCall(c, |c.args|) == None || Dangles(LastConvertCall(c, |c.args|).value))
  }

  predicate DeadArgv(s: Shared) {
    s.argv.Some? && s.argv.value !in s.live && s.argv.value < s.next
  }

  /** current_argv after code whose last nested call was `last`, entered with `entry`. */
  predicate ArgvAfter(last: Option<Call>, entry: Option<Id>, s: Shared) {
    if last.None? then s.argv == entry
    else if Dangles(last.value) then DeadArgv(s)
    else s.argv == None
  }

  lemma {:induction false} FailedIff(c: Call, k: nat)
    requires k <= |c.args|
    ensures Failed(c, k) <==> exists j :: 0 <= j < k && ArgFails(c.args[j])
  {
    if k > 0 {
      FailedIff(c, k - 1);
    }
  }

  lemma {:induction false} OwedMember(own: seq<Id>, id: Id)
    ensures id in own ==> Owed(own, id) > 0
  {
    if own != [] && id != own[0] {
      OwedMember(own[1..], id);
    }
  }

  /** A croak frees the call's own blocks, so an argument block named by current_argv dies with it. */
  lemma {:induction false} FreeAllKills(f: Frame)
    ensures var t := FreeAll(f).world.now;
            && SameApartFromHeap(f.world.now, t) && t.next == f.world.now.next
            && t.live <= f.world.now.live && (forall id :: id in f.own ==> id !in t.live)
  {
    var t := FreeAll(f).world.now;
    ReleaseEffect(f.world.now, f.own, 0);
    forall id: Id
      ensures id in t.live ==> id in f.world.now.live
      ensures id in f.own ==> id !in t.live
    {
      ReleaseEffect(f.world.now, f.own, id);
      OwedMember(f.own, id);
    }
  }

  /** What storing does to the parts this module watches. */
  lemma {:induction false} StoreArgv(p: Platform, code: Code, a: Arg, v: Value, slot: nat, f: Frame)
    requires !f.croaked && Bounded(f.world.now)
    ensures var g := Store(p, code, a, v, slot, f);
            && g.croaked == StoreFails(code, a)
            && g.world.now.argv == f.world.now.argv && g.world.now.next >= f.world.now.next && Bounded(g.world.now)
            && (!g.croaked ==> (forall id :: id in f.own ==> id in g.own) && f.world.now.live <= g.world.now.live)
            && (g.croaked ==> forall id :: id in f.own ==> id !in g.world.now.live)
            && (forall id :: id in g.world.now.live ==> id in f.world.now.live || f.world.now.next <= id)
  {
    if StoreFails(code, a) {
      FreeAllKills(f);
    } else {
      var now := if InKindOf(code) == InClosure then Lend(f.world.now, v, 1) else f.world.now;
      HeapAddsEffect(f.(world := f.world.(now := now), targets := f.targets + [TargetOf(p, code, slot)]),
          BlocksOf(p, code, a));
    }
  }

  lemma {:induction false} StoreConvertedArgv(p: Platform, a: Arg, sv: Sv, slot: nat, f: Frame)
    requires !f.croaked && Bounded(f.world.now)
    ensures var g := StoreConverted(p, a, sv, slot, f);
            && g.croaked == StoreFails(Basis(a.ty.code), a)
            && g.world.now.argv == f.world.now.argv && g.world.now.next >= f.world.now.next && Bounded(g.world.now)
            && (!g.croaked ==> (forall id :: id in f.own ==> id in g.own) && f.world.now.live <= g.world.now.live)
            && (g.croaked ==> forall id :: id in f.own ==> id !in g.world.now.live)
            && (forall id :: id in g.world.now.live ==> id in f.world.now.live || f.world.now.next <= id)
  {
    StoreArgv(p, Basis(a.ty.code), a, Scalar(sv), slot,
        f.(world := f.world.(now := Keep(Bump(f.world.now, sv, 1), sv))));
  }

  /** The state of a call during its argument-in loop. */
  predicate InArgv(c: Call, b: Id, k: nat, f: Frame)
    requires k <= |c.args|
  {
    && f.croaked == Failed(c, k)
    && b < f.world.now.next
    && (!f.croaked ==> b in f.own && b in f.world.now.live && ArgvAfter(LastConvertCall(c, k), Some(b), f.world.now))
    && (f.croaked ==> b !in f.world.now.live &&
                      if LastConvertCall(c, k).None? || Dangles(LastConvertCall(c, k).value) then DeadArgv(f.world.now)
                      else f.world.now.argv == None)
  }

  lemma {:induction false} HandlerArgv(p: Platform, code: seq<Action>, owner: Option<Id>, what: What, w: World)
    requires Bounded(w.now)
    ensures var t := RunHandler(p, code, owner, what, w).now;
            && ArgvAfter(LastCall(code, |code|), w.now.argv, t)
            && t.live == w.now.live && w.now.next <= t.next && Bounded(t)
    decreases code, 1
  {
    HandlerNow(p, code, owner, what, w);
    HandlerFrees(p, code, owner, what, w);
    RunCodeArgv(p, code, owner, |code|, Log(w, owner, what));
  }

  lemma {:induction false} ConvertArgv(p: Platform, c: Call, b: Id, k: nat, w: World)
    requires k < |c.args| && IsCustom(c.args[k].ty.code) && !Failed(c, k) && Bounded(w.now)
    requires ArgvAfter(LastConvertCall(c, k), Some(b), w.now)
    ensures var t := RunConvert(p, c, b, k, w).now;
            && ArgvAfter(LastConvertCall(c, k + 1), Some(b), t)
            && t.live == w.now.live && w.now.next <= t.next && Bounded(t)
    decreases c, 1, 0
  {
    var a := c.args[k];
    if a.ty.convert {
      assert c decreases to a.code;
      HandlerArgv(p, a.code, Some(b), Convert(SlotOf(c, k), Extra(c.style) + k, ValueOf(c, k)), w);
    }
  }

  lemma {:induction false} InCustomArgv(p: Platform, c: Call, b: Id, k: nat, f: Frame)
    requires k < |c.args| && IsCustom(c.args[k].ty.code)
    requires !f.croaked && Bounded(f.world.now) && InArgv(c, b, k, f)
    ensures var g := InCustom(p, c, b, k, f); Bounded(g.world.now) && InArgv(c, b, k + 1, g)
    decreases c, 1, 1
  {
    ConvertArgv(p, c, b, k, f.world);
    var g := f.(world := RunConvert(p, c, b, k, f.world));
    if Converted(c.args[k]).Some? {
      StoreConvertedArgv(p, c.args[k], Converted(c.args[k]).value, SlotOf(c, k), g);
    }
  }

  lemma {:induction false} InStepArgv(p: Platform, c: Call, b: Id, k: nat, f: Frame)
    requires k < |c.args| && !f.croaked && Bounded(f.world.now) && InArgv(c, b, k, f)
    ensures var g := InStep(p, c, b, k, f); Bounded(g.world.now) && InArgv(c, b, k + 1, g)
    decreases c, 1, 2
  {
    var a := c.args[k];
    if IsCustom(a.ty.code) {
      InCustomArgv(p, c, b, k, f);
    } else {
      StoreArgv(p, a.ty.code, a, ValueOf(c, k), SlotOf(c, k), f);
    }
  }

  lemma {:induction false} InPrefixArgv(p: Platform, c: Call, b: Id, k: nat, f: Frame)
    requires k <= |c.args| && !f.croaked && Bounded(f.world.now) && InArgv(c, b, 0, f)
    ensures var g := InPrefix(p, c, b, k, f); Bounded(g.world.now) && InArgv(c, b, k, g)
    decreases c, 1, 3 + k
  {
    if k > 0 {
      InPrefixArgv(p, c, b, k - 1, f);
      var g := InPrefix(p, c, b, k - 1, f);
      if g.croaked {
        assert InPrefix(p, c, b, k, f) == g;
        StillFailed(c, b, k - 1, g);
      } else {
        InStepArgv(p, c, b, k - 1, g);
        assert InPrefix(p, c, b, k, f) == InStep(p, c, b, k - 1, g);
      }
    }
  }

  lemma {:induction false} StillFailed(c: Call, b: Id, k: nat, f: Frame)
    requires k < |c.args| && f.croaked && InArgv(c, b, k, f)
    ensures InArgv(c, b, k + 1, f)
  {
  }

  lemma {:induction false} LeaveArgv(p: Platform, c: Call, b: Id, f: Frame)
    ensures Leave(p, c, b, f).world.now.argv == None
  {
    var early := if FreesEarly(c.ret.code) then FreeAll(f) else f;
    var quiet := early.(world := SetArgv(early.world, None));
    FreeAllKills(f);
    FreeAllKills(quiet);
    var own := SetArgv(quiet.world, Some(b));
    var ran := if c.ret.back then RunHandler(p, c.finish, Some(b), Native, own) else own;
    FreeAllKills(quiet.(world := SetArgv(ran, None)));
  }

  lemma {:induction false} EnterArgv(p: Platform, c: Call, w: World)
    requires Bounded(w.now)
    ensures var f := Enter(p, c, w);
            && !f.croaked && f.targets == [] && Bounded(f.world.now) && InArgv(c, BlockOf(p, c, w), 0, f)
            && f.world.now.keepers == w.now.keepers && f.world.now.count == w.now.count && f.world.log == w.log
            && w.now.live <= f.world.now.live && w.now.next <= f.world.now.next
  {
    var f0 := Frame(w, [], [], false);
    var n := ResultBlocks(p, c);
    HeapAddsEffect(f0, n);
    HeapAddsEffect(f0, n + 1);
    assert BlockOf(p, c, w) == HeapAdds(f0, n).world.now.next;
  }

  lemma {:induction false} RunCallArgv(p: Platform, c: Call, w: World)
    requires Bounded(w.now)
    ensures var f := RunCall(p, c, w);
            && f.croaked == Failed(c, |c.args|)
            && if Dangles(c) then DeadArgv(f.world.now) else f.world.now.argv == None
    decreases c, 2
  {
    var b := BlockOf(p, c, w);
    EnterArgv(p, c, w);
    InPrefixArgv(p, c, b, |c.args|, Enter(p, c, w));
    var f := InPrefix(p, c, b, |c.args|, Enter(p, c, w));
    if !f.croaked {
      var g := f.(world := OutSuffix(p, c, b, 0, RunForeign(p, c, b, f)));
      LeaveArgv(p, c, b, g);
      LeaveReturns(p, c, b, g);
    }
  }

  lemma {:induction false} LeaveReturns(p: Platform, c: Call, b: Id, f: Frame)
    ensures Leave(p, c, b, f).croaked == f.croaked
  {
  }

  lemma {:induction false} RunCodeArgv(p: Platform, code: seq<Action>, owner: Option<Id>, n: nat, w: World)
    requires n <= |code| && Bounded(w.now)
    ensures ArgvAfter(LastCall(code, n), w.now.argv, RunCode(p, code, owner, n, w).now)
    decreases code, 0, n
  {
    if n > 0 {
      RunCodeArgv(p, code, owner, n - 1, w);
      CodeFreesExactlyItsBlocks(p, code, owner, n - 1, w);
      var action := code[n - 1];
      if action.Invoke? {
        assert (code decreases to action) && (action decreases to action.call);
        RunCallArgv(p, action.call, RunCode(p, code, owner, n - 1, w));
      }
    }
  }

  /** A call croaks exactly when an argument fails its class check, and current_argv is safe
      afterwards, being NULL, exactly when the call did not croak or the last call its handlers
      made before the croak left it safe. */
  lemma {:induction false} CurrentArgvAfterCall(p: Platform, c: Call, w: World)
    requires Bounded(w.now)
    ensures var f := RunCall(p, c, w); var t := f.world.now;
            && (f.croaked <==> exists k :: 0 <= k < |c.args| && ArgFails(c.args[k]))
            && ((t.argv.Some? ==> t.argv.value in t.live) <==> !Dangles(c))
            && (t.argv == None <==> !Dangles(c))
  {
    RunCallArgv(p, c, w);
    FailedIff(c, |c.args|);
  }

  /** The call reaches perl_to_native of argument k with current_argv naming its own block exactly
      when no earlier handler of this call made a call of its own; otherwise the arguments_* API
      is out of reach for this handler. */
  lemma {:induction false} ConvertSeesItsCall(p: Platform, c: Call, w: World, k: nat)
    requires Bounded(w.now) && k <= |c.args| && !Failed(c, k)
    ensures var s := InPrefix(p, c, BlockOf(p, c, w), k, Enter(p, c, w)).world.now;
            && (s.argv == Some(BlockOf(p, c, w)) <==> LastConvertCall(c, k) == None)
            && BlockOf(p, c, w) in s.live
  {
    EnterArgv(p, c, w);
    InPrefixArgv(p, c, BlockOf(p, c, w), k, Enter(p, c, w));
  }

  lemma {:induction false} OutStepArgv(p: Platform, c: Call, b: Id, k: nat, w: World)
    requires k < |c.args| && Bounded(w.now) && b in w.now.live && ArgvAfter(LastPostCall(c, k + 1), Some(b), w.now)
    ensures var t := OutStep(p, c, b, k, w);
            && Bounded(t.now) && t.now.live == w.now.live && ArgvAfter(LastPostCall(c, k), Some(b), t.now)
  {
    PostArgv(p, c, b, k, w);
    var u := RunPost(p, c, b, k, w).now;
    assert OutStep(p, c, b, k, w).now == Unkeep(u) || SameApartFromCounts(OutStep(p, c, b, k, w).now, u);
  }

  /** The parts of the shared state that pops and returned closures do not touch. */
  predicate SameApartFromCounts(s: Shared, t: Shared) {
    s.argv == t.argv && s.next == t.next && s.live == t.live
  }

  lemma {:induction false} PostArgv(p: Platform, c: Call, b: Id, k: nat, w: World)
    requires k < |c.args| && Bounded(w.now) && b in w.now.live && ArgvAfter(LastPostCall(c, k + 1), Some(b), w.now)
    ensures var t := RunPost(p, c, b, k, w).now;
            && Bounded(t) && t.live == w.now.live && w.now.next <= t.next && ArgvAfter(LastPostCall(c, k), Some(b), t)
  {
    var a := c.args[k];
    if PostRuns(a) {
      HandlerArgv(p, a.after, Some(b), PostOf(c, k), w);
    } else {
      assert LastPostCall(c, k) == LastPostCall(c, k + 1);
    }
  }

  lemma {:induction false} OutSuffixArgv(p: Platform, c: Call, b: Id, k: nat, w: World)
    requires k <= |c.args| && Bounded(w.now) && w.now.argv == Some(b) && b in w.now.live
    ensures var t := OutSuffix(p, c, b, k, w);
            && Bounded(t.now) && t.now.live == w.now.live && ArgvAfter(LastPostCall(c, k), Some(b), t.now)
    decreases |c.args| - k
  {
    if k < |c.args| {
      OutSuffixArgv(p, c, b, k + 1, w);
      OutStepArgv(p, c, b, k, OutSuffix(p, c, b, k + 1, w));
    }
  }

  lemma {:induction false} ForeignArgv(p: Platform, c: Call, b: Id, f: Frame)
    requires Bounded(f.world.now)
    ensures var w := RunForeign(p, c, b, f);
            w.now.argv == Some(b) && w.now.live == f.world.now.live && f.world.now.next <= w.now.next && Bounded(w.now)
  {
    HandlerFrees(p, c.callbacks, Some(b), Foreign(f.targets), SetArgv(f.world, None));
  }

  /** Likewise on the way out: the post handler of argument k (visited after those of the later
      arguments) finds its own block exactly when none of them made a call. */
  lemma {:induction false} PostSeesItsCall(p: Platform, c: Call, w: World, k: nat)
    requires Bounded(w.now) && k < |c.args| && !Failed(c, |c.args|)
    ensures var b := BlockOf(p, c, w);
            var f := InPrefix(p, c, b, |c.args|, Enter(p, c, w));
            var s := OutSuffix(p, c, b, k + 1, RunForeign(p, c, b, f)).now;
            (s.argv == Some(b) <==> LastPostCall(c, k + 1) == None) && b in s.live
  {
    var b := BlockOf(p, c, w);
    CalledArgv(p, c, w);
    OutSuffixArgv(p, c, b, k + 1, RunForeign(p, c, b, InPrefix(p, c, b, |c.args|, Enter(p, c, w))));
  }

  lemma {:induction false} CalledArgv(p: Platform, c: Call, w: World)
    requires Bounded(w.now) && !Failed(c, |c.args|)
    ensures var b := BlockOf(p, c, w);
            var s := RunForeign(p, c, b, InPrefix(p, c, b, |c.args|, Enter(p, c, w))).now;
            Bounded(s) && s.argv == Some(b) && b in s.live
  {
    var b := BlockOf(p, c, w);
    EnterArgv(p, c, w);
    InPrefixArgv(p, c, b, |c.args|, Enter(p, c, w));
    ForeignArgv(p, c, b, InPrefix(p, c, b, |c.args|, Enter(p, c, w)));
  }

  // ---- The log ----

  lemma {:induction false} StoreLog(p: Platform, code: Code, a: Arg, v: Value, slot: nat, f: Frame)
    ensures Store(p, code, a, v, slot, f).world.log == f.world.log
  {
    var now := if InKindOf(code) == InClosure then Lend(f.world.now, v, 1) else f.world.now;
    var g := f.(world := f.world.(now := now), targets := f.targets + [TargetOf(p, code, slot)]);
    HeapAddsEffect(g, BlocksOf(p, code, a));
  }

  lemma {:induction false} StoreConvertedLog(p: Platform, a: Arg, value: Sv, slot: nat, f: Frame)
    ensures StoreConverted(p, a, value, slot, f).world.log == f.world.log
  {
    var kept := f.(world := f.world.(now := Keep(Bump(f.world.now, value, 1), value)));
    StoreLog(p, Basis(a.ty.code), a, Scalar(value), slot, kept);
  }

  lemma {:induction false} InStepLog(p: Platform, c: Call, b: Id, k: nat, f: Frame)
    requires k < |c.args|
    ensures InStep(p, c, b, k, f).world.log ==
            if ConvertRuns(c.args[k]) then RunConvert(p, c, b, k, f.world).log else f.world.log
  {
    var a := c.args[k];
    if !IsCustom(a.ty.code) {
      StoreLog(p, a.ty.code, a, ValueOf(c, k), SlotOf(c, k), f);
    } else if Converted(a).Some? {
      StoreConvertedLog(p, a, Converted(a).value, SlotOf(c, k), f.(world := RunConvert(p, c, b, k, f.world)));
    }
  }

  // ---- Every use of the arguments_* API ----

  /** The state after n actions of perl_to_native of argument k, of the post handler of argument k,
      of native_to_perl, and of the Perl code of closures during the foreign call. */
  function InConvert(p: Platform, c: Call, w: World, k: nat, n: nat): Shared
    requires k < |c.args| && n <= |c.args[k].code|
  {
    var b := BlockOf(p, c, w);
    var entry := InPrefix(p, c, b, k, Enter(p, c, w)).world;
    var what := Convert(SlotOf(c, k), Extra(c.style) + k, ValueOf(c, k));
    RunCode(p, c.args[k].code, Some(b), n, Log(entry, Some(b), what)).now
  }

  function InPost(p: Platform, c: Call, w: World, k: nat, n: nat): Shared
    requires k < |c.args| && n <= |c.args[k].after|
  {
    var b := BlockOf(p, c, w);
    var called := RunForeign(p, c, b, InPrefix(p, c, b, |c.args|, Enter(p, c, w)));
    RunCode(p, c.args[k].after, Some(b), n, Log(OutSuffix(p, c, b, k + 1, called), Some(b), PostOf(c, k))).now
  }

  function InFinish(p: Platform, c: Call, w: World, n: nat): Shared
    requires n <= |c.finish|
  {
    var b := BlockOf(p, c, w);
    var called := RunForeign(p, c, b, InPrefix(p, c, b, |c.args|, Enter(p, c, w)));
    RunCode(p, c.finish, Some(b), n, Log(SetArgv(OutSuffix(p, c, b, 0, called), Some(b)), Some(b), Native)).now
  }

  function InCallback(p: Platform, c: Call, w: World, n: nat): Shared
    requires n <= |c.callbacks|
  {
    var b := BlockOf(p, c, w);
    var f := InPrefix(p, c, b, |c.args|, Enter(p, c, w));
    RunCode(p, c.callbacks, Some(b), n, Log(SetArgv(f.world, None), Some(b), Foreign(f.targets))).now
  }

  lemma {:induction false} ApiInCode(p: Platform, code: seq<Action>, b: Id, n: nat, last: Option<Call>, w: World)
    requires n <= |code| && Bounded(w.now) && b in w.now.live && ArgvAfter(last, Some(b), w.now)
    ensures var s := RunCode(p, code, Some(b), n, w).now;
            (s.argv == Some(b) <==> last == None && LastCall(code, n) == None) && b in s.live
  {
    RunCodeArgv(p, code, Some(b), n, w);
    CodeFreesExactlyItsBlocks(p, code, Some(b), n, w);
  }

  /** Inside perl_to_native of argument k the API reaches this call's block exactly as long as
      neither an earlier handler of the call nor this one so far has made a call. */
  lemma {:induction false} ApiInConvert(p: Platform, c: Call, w: World, k: nat, n: nat)
    requires Bounded(w.now) && k < |c.args| && !Failed(c, k) && n <= |c.args[k].code|
    ensures var b, s := BlockOf(p, c, w), InConvert(p, c, w, k, n);
            && (s.argv == Some(b) <==> LastConvertCall(c, k) == None && LastCall(c.args[k].code, n) == None)
            && b in s.live
  {
    var b := BlockOf(p, c, w);
    EnterArgv(p, c, w);
    InPrefixArgv(p, c, b, k, Enter(p, c, w));
    var v := InPrefix(p, c, b, k, Enter(p, c, w)).world;
    var what := Convert(SlotOf(c, k), Extra(c.style) + k, ValueOf(c, k));
    ApiInCode(p, c.args[k].code, b, n, LastConvertCall(c, k), Log(v, Some(b), what));
  }

  /** Inside a post handler, likewise, counting from the end of the foreign call. */
  lemma {:induction false} ApiInPost(p: Platform, c: Call, w: World, k: nat, n: nat)
    requires Bounded(w.now) && k < |c.args| && !Failed(c, |c.args|) && n <= |c.args[k].after|
    ensures var b, s := BlockOf(p, c, w), InPost(p, c, w, k, n);
            && (s.argv == Some(b) <==> LastPostCall(c, k + 1) == None && LastCall(c.args[k].after, n) == None)
            && b in s.live
  {
    var b := BlockOf(p, c, w);
    CalledArgv(p, c, w);
    var called := RunForeign(p, c, b, InPrefix(p, c, b, |c.args|, Enter(p, c, w)));
    OutSuffixArgv(p, c, b, k + 1, called);
    var v := Log(OutSuffix(p, c, b, k + 1, called), Some(b), PostOf(c, k));
    ApiInCode(p, c.args[k].after, b, n, LastPostCall(c, k + 1), v);
  }

  /** Inside native_to_perl only its own calls matter. */
  lemma {:induction false} ApiInFinish(p: Platform, c: Call, w: World, n: nat)
    requires Bounded(w.now) && !Failed(c, |c.args|) && n <= |c.finish|
    ensures var b, s := BlockOf(p, c, w), InFinish(p, c, w, n);
            (s.argv == Some(b) <==> LastCall(c.finish, n) == None) && b in s.live
  {
    var b := BlockOf(p, c, w);
    CalledArgv(p, c, w);
    var called := RunForeign(p, c, b, InPrefix(p, c, b, |c.args|, Enter(p, c, w)));
    OutSuffixArgv(p, c, b, 0, called);
    ApiInCode(p, c.finish, b, n, None, Log(SetArgv(OutSuffix(p, c, b, 0, called), Some(b)), Some(b), Native));
  }

  /** Perl code of closures never reaches the block of the call that called back. */
  lemma {:induction false} NoApiInCallback(p: Platform, c: Call, w: World, n: nat)
    requires Bounded(w.now) && !Failed(c, |c.args|) && n <= |c.callbacks|
    ensures var b, s := BlockOf(p, c, w), InCallback(p, c, w, n); s.argv != Some(b) && b in s.live
  {
    var b := BlockOf(p, c, w);
    EnterArgv(p, c, w);
    InPrefixArgv(p, c, b, |c.args|, Enter(p, c, w));
    var f := InPrefix(p, c, b, |c.args|, Enter(p, c, w));
    var v := Log(SetArgv(f.world, None), Some(b), Foreign(f.targets));
    RunCodeArgv(p, c.callbacks, Some(b), n, v);
    CodeFreesExactlyItsBlocks(p, c.callbacks, Some(b), n, v);
  }
}
