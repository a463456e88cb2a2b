/** The shared keeper stack and the reference counts of converted values and closures, over every
    run, croaking calls included. */
module KeeperLaws {
  import opened TypeCodes
  import opened CallModel
  import opened HeapLaws
  import opened ArgvLaws
  import opened KeeperEffects

  function Occurs(stack: seq<Sv>, sv: Sv): nat {
    if stack == [] then 0
    else Occurs(stack[..|stack| - 1], sv) + (if stack[|stack| - 1] == sv then 1 else 0)
  }

  /** Reference counts the keepers do not account for. */
  function Unaccounted(s: Shared, sv: Sv): int {
    Count(s.count, sv) - Occurs(s.keepers, sv)
  }

  lemma {:induction false} KeepEffect(s: Shared, value: Sv, sv: Sv)
    ensures Unaccounted(Keep(s, value), sv) == Unaccounted(s, sv)
  {
    assert (s.keepers + [value])[..|s.keepers|] == s.keepers;
  }

  lemma {:induction false} UnkeepEffect(s: Shared, sv: Sv)
    ensures Unaccounted(Unkeep(s), sv) == Unaccounted(s, sv) && Unkeep(s).keepers == Act(Effect(1, []), s.keepers)
  {
    assert Act(Effect(1, []), s.keepers) == Drop(s.keepers, 1);
  }

  /** The two switches agree on which codes are closures, and no custom code is one. */
  lemma {:induction false} ClosureArms(code: Code)
    ensures InKindOf(code) == InClosure <==> code == CLOSURE
    ensures OutKindOf(code) == OutClosure <==> code == CLOSURE
    ensures OutKindOf(code) == OutCustom <==> IsCustom(code)
    ensures IsCustom(code) ==> code != CLOSURE
  {
  }

  lemma {:induction false} StoreKeepers(p: Platform, code: Code, a: Arg, v: Value, slot: nat, f: Frame, sv: Sv)
    requires !f.croaked
    ensures var s, g := f.world.now, Store(p, code, a, v, slot, f);
            && g.croaked == StoreFails(code, a) && g.world.now.keepers == s.keepers
            && Unaccounted(g.world.now, sv) == Unaccounted(s, sv) + (if code == CLOSURE then LentBy(v, sv) else 0)
  {
    ClosureArms(code);
    if StoreFails(code, a) {
      FreeAllKills(f);
    } else {
      var now := if InKindOf(code) == InClosure then Lend(f.world.now, v, 1) else f.world.now;
      var g := f.(world := f.world.(now := now), targets := f.targets + [TargetOf(p, code, slot)]);
      HeapAddsEffect(g, BlocksOf(p, code, a));
    }
  }

  /** A converted value is pushed once; its reference from the conversion is dropped again unless
      the value fails its check. */
  lemma {:induction false} StoreConvertedKeepers(p: Platform, a: Arg, value: Sv, slot: nat, f: Frame, sv: Sv)
    requires !f.croaked
    ensures var s, g := f.world.now, StoreConverted(p, a, value, slot, f);
            && g.croaked == StoreFails(Basis(a.ty.code), a) && g.world.now.keepers == s.keepers + [value]
            && Unaccounted(g.world.now, sv) == Unaccounted(s, sv) + (if g.croaked && value == sv then 1 else 0)
  {
    var kept := f.(world := f.world.(now := Keep(Bump(f.world.now, value, 1), value)));
    StoreKeepers(p, Basis(a.ty.code), a, Scalar(value), slot, kept, sv);
    KeepEffect(Bump(f.world.now, value, 1), value, sv);
  }

  // ---- The argument-in loop ----

  lemma {:induction false} ConvertKeepers(p: Platform, c: Call, b: Id, k: nat, w: World, sv: Sv)
    requires k < |c.args| && IsCustom(c.args[k].ty.code)
    ensures var t := RunConvert(p, c, b, k, w).now;
            && t.keepers == Act(ConvertEffect(c, k), w.now.keepers)
            && Unaccounted(t, sv) == Unaccounted(w.now, sv) + ConvertLeak(c, k, sv)
    decreases c, 1, 2 * k
  {
    var a := c.args[k];
    if a.ty.convert {
      HandlerKeepers(p, a.code, Some(b), Convert(SlotOf(c, k), Extra(c.style) + k, ValueOf(c, k)), w, sv);
    }
  }

  lemma {:induction false} InCustomKeepers(p: Platform, c: Call, b: Id, k: nat, f: Frame, sv: Sv)
    requires k < |c.args| && !f.croaked && IsCustom(c.args[k].ty.code)
    ensures var s, g := f.world.now, InCustom(p, c, b, k, f);
            && g.croaked == ArgFails(c.args[k])
            && g.world.now.keepers == Act(InEffectAt(c, k), s.keepers)
            && Unaccounted(g.world.now, sv) == Unaccounted(s, sv) + (ConvertLeak(c, k, sv) + FailingLeak(c.args[k], sv))
    decreases c, 1, 2 * k + 1
  {
    var a := c.args[k];
    ConvertKeepers(p, c, b, k, f.world, sv);
    var g := f.(world := RunConvert(p, c, b, k, f.world));
    var h := InCustom(p, c, b, k, f);
    if Converted(a).Some? {
      StoreConvertedKeepers(p, a, Converted(a).value, SlotOf(c, k), g, sv);
      assert h == StoreConverted(p, a, Converted(a).value, SlotOf(c, k), g);
    } else {
      assert h.world == g.world && !h.croaked;
    }
    Acts(ConvertEffect(c, k), Effect(0, PushedAt(a)), InEffectAt(c, k), f.world.now.keepers, g.world.now.keepers,
         h.world.now.keepers);
  }

  /** One turn of the loop. */
  lemma {:induction false} InStepKeepers(p: Platform, c: Call, b: Id, k: nat, f: Frame, sv: Sv)
    requires k < |c.args| && !f.croaked
    ensures var s, g := f.world.now, InStep(p, c, b, k, f);
            && g.croaked == ArgFails(c.args[k])
            && g.world.now.keepers == Act(InEffectAt(c, k), s.keepers)
            && Unaccounted(g.world.now, sv) ==
               Unaccounted(s, sv) + (ConvertLeak(c, k, sv) + FailingLeak(c.args[k], sv)) + LentAt(c, k, sv)
    decreases c, 1, 2 * k + 2
  {
    var a := c.args[k];
    ClosureArms(a.ty.code);
    if IsCustom(a.ty.code) {
      InCustomKeepers(p, c, b, k, f, sv);
    } else {
      StoreKeepers(p, a.ty.code, a, ValueOf(c, k), SlotOf(c, k), f, sv);
      assert InStep(p, c, b, k, f) == Store(p, a.ty.code, a, ValueOf(c, k), SlotOf(c, k), f);
      assert InEffectAt(c, k) == NOTHING;
      ActNothing(f.world.now.keepers);
    }
  }

  /** The loop from its start: whether it croaked, and the references. */
  lemma {:induction false} InPrefixReferences(p: Platform, c: Call, b: Id, k: nat, f: Frame, sv: Sv)
    requires k <= |c.args| && !f.croaked
    ensures var g := InPrefix(p, c, b, k, f);
            && g.croaked == Failed(c, k)
            && Unaccounted(g.world.now, sv) == Unaccounted(f.world.now, sv) + InLeak(c, k, sv) + Lent(c, k, sv)
    decreases c, 1, 2 * k + 2
  {
    if k > 0 {
      InPrefixReferences(p, c, b, k - 1, f, sv);
      var g := InPrefix(p, c, b, k - 1, f);
      if g.croaked {
        assert InPrefix(p, c, b, k, f) == g;
      } else {
        InNextReferences(p, c, b, k - 1, f, g, sv);
        assert InPrefix(p, c, b, k, f) == InStep(p, c, b, k - 1, g);
      }
    }
  }

  lemma {:induction false} InNextReferences(p: Platform, c: Call, b: Id, k: nat, f: Frame, g: Frame, sv: Sv)
    requires k < |c.args| && !g.croaked && !Failed(c, k)
    requires Unaccounted(g.world.now, sv) == Unaccounted(f.world.now, sv) + InLeak(c, k, sv) + Lent(c, k, sv)
    ensures var h := InStep(p, c, b, k, g);
            && h.croaked == Failed(c, k + 1)
            && Unaccounted(h.world.now, sv) == Unaccounted(f.world.now, sv) + InLeak(c, k + 1, sv) + Lent(c, k + 1, sv)
    decreases c, 1, 2 * k + 3
  {
    InStepKeepers(p, c, b, k, g, sv);
  }

  /** The stack from argument j to argument k. */
  lemma {:induction false} InPrefixKeepers(p: Platform, c: Call, b: Id, j: nat, k: nat, f: Frame)
    requires j <= k <= |c.args| && !f.croaked
    ensures InPrefix(p, c, b, k, f).world.now.keepers ==
            Act(InEffect(c, j, k), InPrefix(p, c, b, j, f).world.now.keepers)
    decreases c, 1, 2 * k + 1
  {
    if j < k {
      InPrefixKeepers(p, c, b, j, k - 1, f);
      InPrefixReferences(p, c, b, k - 1, f, 0);
      var g := InPrefix(p, c, b, k - 1, f);
      if !g.croaked {
        InStepKeepers(p, c, b, k - 1, g, 0);
        assert InPrefix(p, c, b, k, f) == InStep(p, c, b, k - 1, g);
        Acts(InEffect(c, j, k - 1), InEffectAt(c, k - 1), InEffect(c, j, k),
             InPrefix(p, c, b, j, f).world.now.keepers, g.world.now.keepers,
             InPrefix(p, c, b, k, f).world.now.keepers);
      }
    }
  }

  // ---- The foreign call and the argument-out loop ----

  lemma {:induction false} ForeignKeepers(p: Platform, c: Call, b: Id, f: Frame, sv: Sv)
    ensures var s, t := f.world.now, RunForeign(p, c, b, f).now;
            && t.keepers == Act(CodeEffect(c.callbacks, |c.callbacks|), s.keepers)
            && Unaccounted(t, sv) == Unaccounted(s, sv) + CodeLeak(c.callbacks, |c.callbacks|, sv)
    decreases c, 1
  {
    HandlerKeepers(p, c.callbacks, Some(b), Foreign(f.targets), SetArgv(f.world, None), sv);
  }

  /** The post handler itself. */
  lemma {:induction false} PostKeepers(p: Platform, c: Call, b: Id, k: nat, w: World, sv: Sv)
    requires k < |c.args|
    ensures var t := RunPost(p, c, b, k, w).now;
            && t.keepers == Act(PostEffect(c, k), w.now.keepers)
            && Unaccounted(t, sv) == Unaccounted(w.now, sv) + PostLeak(c, k, sv)
    decreases c, 1, 0
  {
    var a := c.args[k];
    if PostRuns(a) {
      HandlerKeepers(p, a.after, Some(b), PostOf(c, k), w, sv);
    }
  }

  lemma {:induction false} OutStepKeepers(p: Platform, c: Call, b: Id, k: nat, w: World, sv: Sv)
    requires k < |c.args|
    ensures var t := OutStep(p, c, b, k, w).now;
            && t.keepers == Act(OutEffectAt(c, k), w.now.keepers)
            && Unaccounted(t, sv) == Unaccounted(w.now, sv) + PostLeak(c, k, sv) - LentAt(c, k, sv)
    decreases c, 1, 1
  {
    var a := c.args[k];
    ClosureArms(a.ty.code);
    if IsCustom(a.ty.code) {
      PostKeepers(p, c, b, k, w, sv);
      var u := RunPost(p, c, b, k, w);
      UnkeepEffect(u.now, sv);
      assert OutStep(p, c, b, k, w) == u.(now := Unkeep(u.now));
      Acts(PostEffect(c, k), Effect(1, []), OutEffectAt(c, k), w.now.keepers, u.now.keepers, Unkeep(u.now).keepers);
    }
  }

  lemma {:induction false} OutSuffixKeepers(p: Platform, c: Call, b: Id, k: nat, w: World, sv: Sv)
    requires k <= |c.args| && !Failed(c, |c.args|)
    ensures var t := OutSuffix(p, c, b, k, w).now;
            && t.keepers == Act(OutEffect(c, k), w.now.keepers)
            && Unaccounted(t, sv) == Unaccounted(w.now, sv) +
                OutLeak(c, k, sv) - (Lent(c, |c.args|, sv) - Lent(c, k, sv))
    decreases c, 1, 2 + |c.args| - k
  {
    if k < |c.args| {
      OutSuffixKeepers(p, c, b, k + 1, w, sv);
      var u := OutSuffix(p, c, b, k + 1, w);
      OutStepKeepers(p, c, b, k, u, sv);
      NotFailedBefore(c, k, |c.args|);
      var t := OutStep(p, c, b, k, u);
      assert OutSuffix(p, c, b, k, w) == t;
      assert Lent(c, k + 1, sv) == Lent(c, k, sv) + LentAt(c, k, sv);
      Acts(OutEffect(c, k + 1), OutEffectAt(c, k), OutEffect(c, k), w.now.keepers, u.now.keepers, t.now.keepers);
    }
  }

  lemma {:induction false} NotFailedBefore(c: Call, j: nat, k: nat)
    requires j <= k <= |c.args| && !Failed(c, k)
    ensures !Failed(c, j) && (j < k ==> !ArgFails(c.args[j]))
  {
    FailedIff(c, j);
    FailedIff(c, k);
  }

  // ---- Whole calls ----

  lemma {:induction false} LeaveKeepers(p: Platform, c: Call, b: Id, f: Frame, sv: Sv)
    ensures var s, t := f.world.now, Leave(p, c, b, f).world.now;
            && t.keepers == Act(FinishEffect(c), s.keepers)
            && Unaccounted(t, sv) == Unaccounted(s, sv) + FinishLeak(c, sv)
    decreases c, 1
  {
    var early := if FreesEarly(c.ret.code) then FreeAll(f) else f;
    var quiet := early.(world := SetArgv(early.world, None));
    FreeAllKills(f);
    FreeAllKills(quiet);
    var own := SetArgv(quiet.world, Some(b));
    if FinishRuns(c) {
      HandlerKeepers(p, c.finish, Some(b), Native, own, sv);
    }
    var ran := if c.ret.back then RunHandler(p, c.finish, Some(b), Native, own) else own;
    FreeAllKills(quiet.(world := SetArgv(ran, None)));
  }

  /** The stack back at argument k, from what it was at argument m on the way in. */
  lemma {:induction false} RoundKeepers(p: Platform, c: Call, b: Id, m: nat, k: nat, f: Frame)
    requires m <= |c.args| && k <= |c.args| && !f.croaked && !Failed(c, |c.args|)
    ensures OutSuffix(p, c, b, k, RunForeign(p, c, b, InPrefix(p, c, b, |c.args|, f))).now.keepers ==
            Act(RoundEffect(c, m, k), InPrefix(p, c, b, m, f).world.now.keepers)
    decreases c, 2, 0
  {
    var n := |c.args|;
    InPrefixKeepers(p, c, b, m, n, f);
    var g := InPrefix(p, c, b, n, f);
    ForeignKeepers(p, c, b, g, 0);
    var u := RunForeign(p, c, b, g);
    OutSuffixKeepers(p, c, b, k, u, 0);
    var callbacks := CodeEffect(c.callbacks, |c.callbacks|);
    var start := InPrefix(p, c, b, m, f).world.now.keepers;
    ActThen(InEffect(c, m, n), callbacks, start);
    ActThen(Then(InEffect(c, m, n), callbacks), OutEffect(c, k), start);
  }

  lemma {:induction false} RunCallKeepers(p: Platform, c: Call, w: World, sv: Sv)
    ensures var t := RunCall(p, c, w).world.now;
            && t.keepers == Act(CallEffect(c), w.now.keepers)
            && Unaccounted(t, sv) == Unaccounted(w.now, sv) + CallLeak(c, sv)
    decreases c, 2
  {
    var b := BlockOf(p, c, w);
    var f0 := Enter(p, c, w);
    HeapAddsEffect(Frame(w, [], [], false), ResultBlocks(p, c) + 1);
    InPrefixReferences(p, c, b, |c.args|, f0, sv);
    var f := InPrefix(p, c, b, |c.args|, f0);
    if f.croaked {
      InPrefixKeepers(p, c, b, 0, |c.args|, f0);
    } else {
      ReturningCallKeepers(p, c, w, b, f0, f, sv);
    }
  }

  lemma {:induction false} ReturningCallKeepers(p: Platform, c: Call, w: World, b: Id, f0: Frame, f: Frame, sv: Sv)
    requires !f0.croaked && f0.world.now.keepers == w.now.keepers && !Failed(c, |c.args|)
    requires f == InPrefix(p, c, b, |c.args|, f0)
    ensures var v := OutSuffix(p, c, b, 0, RunForeign(p, c, b, f));
            var t := Leave(p, c, b, f.(world := v)).world.now;
            && t.keepers == Act(CallEffect(c), w.now.keepers)
            && Unaccounted(t, sv) == Unaccounted(f.world.now, sv) - Lent(c, |c.args|, sv) +
                                     CodeLeak(c.callbacks, |c.callbacks|, sv) + OutLeak(c, 0, sv) + FinishLeak(c, sv)
    decreases c, 2, 1
  {
    ForeignKeepers(p, c, b, f, sv);
    var u := RunForeign(p, c, b, f);
    OutSuffixKeepers(p, c, b, 0, u, sv);
    var v := OutSuffix(p, c, b, 0, u);
    LeaveKeepers(p, c, b, f.(world := v), sv);
    RoundKeepers(p, c, b, 0, 0, f0);
    Acts(RoundEffect(c, 0, 0), FinishEffect(c), CallEffect(c), w.now.keepers, v.now.keepers,
         Leave(p, c, b, f.(world := v)).world.now.keepers);
  }

  lemma {:induction false} HandlerKeepers(p: Platform, code: seq<Action>, owner: Option<Id>, what: What, w: World,
                                         sv: Sv)
    ensures var t := RunHandler(p, code, owner, what, w).now;
            && t.keepers == Act(CodeEffect(code, |code|), w.now.keepers)
            && Unaccounted(t, sv) == Unaccounted(w.now, sv) + CodeLeak(code, |code|, sv)
    decreases code, 1
  {
    HandlerNow(p, code, owner, what, w);
    RunCodeKeepers(p, code, owner, |code|, Log(w, owner, what), sv);
  }

  lemma {:induction false} RunCodeKeepers(p: Platform, code: seq<Action>, owner: Option<Id>, n: nat, w: World, sv: Sv)
    requires n <= |code|
    ensures var t := RunCode(p, code, owner, n, w).now;
            && t.keepers == Act(CodeEffect(code, n), w.now.keepers)
            && Unaccounted(t, sv) == Unaccounted(w.now, sv) + CodeLeak(code, n, sv)
    decreases code, 0, n
  {
    if n > 0 {
      RunCodeKeepers(p, code, owner, n - 1, w, sv);
      var action := code[n - 1];
      var u := RunCode(p, code, owner, n - 1, w);
      if action.Invoke? {
        assert (code decreases to action) && (action decreases to action.call);
        RunCallKeepers(p, action.call, u, sv);
        Acts(CodeEffect(code, n - 1), CallEffect(action.call), CodeEffect(code, n),
             w.now.keepers, u.now.keepers, RunCall(p, action.call, u).world.now.keepers);
      }
    }
  }

  /** The keeper stack after any call, croaking or not, with any calls nested in it: what the call's
      effect makes of the stack it found.  So the call leaves the stack as it found it exactly when
      the entries it takes off and the entries it leaves on top are the same; and it does so for
      every stack exactly when its effect is nothing. */
  lemma {:induction false} KeeperStackAfterCall(p: Platform, c: Call, w: World)
    ensures var t := RunCall(p, c, w).world.now;
            && t.keepers == Act(CallEffect(c), w.now.keepers)
            && (t.keepers == w.now.keepers <==> Restores(CallEffect(c), w.now.keepers))
    ensures (forall stack :: Restores(CallEffect(c), stack)) <==> CallEffect(c) == NOTHING
  {
    RunCallKeepers(p, c, w, 0);
    RestoresIff(CallEffect(c), w.now.keepers);
    OnlyNothingRestoresAll(CallEffect(c));
  }

  lemma {:induction false} OnlyNothingRestoresAll(e: Effect)
    ensures (forall stack :: Restores(e, stack)) <==> e == NOTHING
  {
    if e != NOTHING {
      if e.push != [] {
        assert !Restores(e, []);
      } else {
        assert !Restores(e, [0]);
      }
    }
  }

  /** References, for every scalar: over any call the count changes with the keepers, and beyond that
      by what croaks leave behind.  Nothing is ever released once too often. */
  lemma {:induction false} ReferencesAfterCall(p: Platform, c: Call, w: World, sv: Sv)
    ensures var t := RunCall(p, c, w).world.now;
            Count(t.count, sv) - Count(w.now.count, sv) ==
            Occurs(t.keepers, sv) - Occurs(w.now.keepers, sv) + CallLeak(c, sv)
  {
    RunCallKeepers(p, c, w, sv);
  }
}
