/** `$function->call(...)` and an attached sub do the same: the same state at every event and in the end,
    the same memory, the same croak; the handlers are told a place on the Perl stack that lies one
    further for the method call, which has the function object in front. */
module StyleLaws {
  import opened TypeCodes
  import opened CallModel
  import opened HeapLaws
  import opened ArgvLaws
  import opened EventLaws
  import opened TraceLaws

  /** Calls that differ at most in how they are made. */
  predicate Alike(c: Call, c': Call) {
    && c.args == c'.args && c.callbacks == c'.callbacks && c.scribble == c'.scribble && c.ret == c'.ret
    && c.finish == c'.finish && Arguments(c) == Arguments(c')
  }

  /** How much further the arguments of c' lie on its stack. */
  function Shift(c: Call, c': Call): int {
    PlaceOf(c', 0) - PlaceOf(c, 0)
  }

  predicate SameWhat(x: What, y: What, d: int) {
    match x
    case Convert(slot, index, value) => y.Convert? && y.slot == slot && y.index == index + d && y.value == value
    case Post(slot, index, value) => y.Post? && y.slot == slot && y.index == index + d && y.value == value
    case _ => y == x
  }

  /** The same event, but that places on the stack of call b lie d further. */
  predicate TwinEvents(e: Event, e': Event, b: Id, d: int) {
    e.owner == e'.owner && e.at == e'.at && SameWhat(e.what, e'.what, if e.owner == Some(b) then d else 0)
  }

  ghost predicate TwinLogs(log: seq<Event>, log': seq<Event>, b: Id, d: int) {
    |log| == |log'| && forall j :: 0 <= j < |log| ==> TwinEvents(log[j], log'[j], b, d)
  }

  /** From u to u' there were just the same events as from v to v', with the same state at the end. */
  ghost predicate Twins(u: World, u': World, v: World, v': World, b: Id, d: int) {
    u'.now == v'.now && u.log <= u'.log && v.log <= v'.log && TwinLogs(u'.log[|u.log|..], v'.log[|v.log|..], b, d)
  }

  lemma {:induction false} TwinsOne(u: World, v: World, b: Id, what: What, what': What, d: int)
    requires u.now == v.now && SameWhat(what, what', d)
    ensures Twins(u, Log(u, Some(b), what), v, Log(v, Some(b), what'), b, d)
  {
  }

  lemma {:induction false} TwinsThen(u: World, u': World, u'': World, v: World, v': World, v'': World, b: Id, d: int)
    requires Twins(u, u', v, v', b, d) && Twins(u', u'', v', v'', b, d)
    ensures Twins(u, u'', v, v'', b, d)
  {
    assert u''.log[|u.log|..] == u'.log[|u.log|..] + u''.log[|u'.log|..];
    assert v''.log[|v.log|..] == v'.log[|v.log|..] + v''.log[|v'.log|..];
  }

  /** Other states at the ends. */
  lemma {:induction false} TwinsOfLogs(u: World, u': World, v: World, v': World, t: World, t': World, w: World,
                                       w': World, b: Id, d: int)
    requires Twins(u, u', v, v', b, d) && t.log == u.log && t'.log == u'.log && w.log == v.log && w'.log == v'.log
    requires t'.now == w'.now
    ensures Twins(t, t', w, w', b, d)
  {
  }

  /** Twins without any shift, none of them events of call b. */
  lemma {:induction false} TwinsOfNewer(u: World, u': World, v: World, v': World, newer: Id, whats: seq<What>, b: Id,
                                        d: int)
    requires Twins(u, u', v, v', newer, 0) && Part(u, u', newer, whats) && b < newer
    ensures Twins(u, u', v, v', b, d)
  {
    var m := u'.log[|u.log|..];
    forall j | 0 <= j < |m|
      ensures TwinEvents(m[j], v'.log[|v.log|..][j], b, d)
    {
      assert m[j] == u'.log[|u.log| + j];
    }
  }

  // ---- Steps that log nothing ----

  function WithLog(f: Frame, log: seq<Event>): Frame {
    f.(world := f.world.(log := log))
  }

  lemma {:induction false} HeapAddsWithLog(f: Frame, n: nat, log: seq<Event>)
    ensures HeapAdds(WithLog(f, log), n) == WithLog(HeapAdds(f, n), log)
  {
    if n > 0 {
      HeapAddsWithLog(f, n - 1, log);
    }
  }

  lemma {:induction false} StoreWithLog(p: Platform, code: Code, a: Arg, v: Value, slot: nat, f: Frame, log: seq<Event>)
    ensures Store(p, code, a, v, slot, WithLog(f, log)) == WithLog(Store(p, code, a, v, slot, f), log)
  {
    var now := if InKindOf(code) == InClosure then Lend(f.world.now, v, 1) else f.world.now;
    var g := f.(world := f.world.(now := now), targets := f.targets + [TargetOf(p, code, slot)]);
    HeapAddsWithLog(g, BlocksOf(p, code, a), log);
  }

  lemma {:induction false} StoreConvertedWithLog(p: Platform, a: Arg, sv: Sv, slot: nat, f: Frame, log: seq<Event>)
    ensures StoreConverted(p, a, sv, slot, WithLog(f, log)) == WithLog(StoreConverted(p, a, sv, slot, f), log)
  {
    var kept := f.(world := f.world.(now := Keep(Bump(f.world.now, sv, 1), sv)));
    StoreWithLog(p, Basis(a.ty.code), a, Scalar(sv), slot, kept, log);
  }

  lemma {:induction false} EnterWithLog(p: Platform, c: Call, c': Call, u: World, v: World)
    requires u.now == v.now && c.ret == c'.ret
    ensures Enter(p, c', v) == WithLog(Enter(p, c, u), v.log) && BlockOf(p, c', v) == BlockOf(p, c, u)
  {
    var f := Frame(u, [], [], false);
    assert Frame(v, [], [], false) == WithLog(f, v.log);
    HeapAddsWithLog(f, ResultBlocks(p, c) + 1, v.log);
  }

  /** Which exit a call takes does not depend on how it is made. */
  lemma {:induction false} SameExit(style: Style, style': Style, code: Code)
    ensures ExitOf(VariantOf(style, code), code) == ExitOf(VariantOf(style', code), code)
  {
  }

  // ---- Whole runs ----

  lemma {:induction false} CodeTwins(p: Platform, code: seq<Action>, b: Id, n: nat, u: World, v: World, d: int)
    requires n <= |code| && u.now == v.now && Bounded(u.now) && b < u.now.next
    ensures Twins(u, RunCode(p, code, Some(b), n, u), v, RunCode(p, code, Some(b), n, v), b, d)
    decreases code, 0, n
  {
    if n > 0 {
      CodeTwins(p, code, b, n - 1, u, v, d);
      CodeFreesExactlyItsBlocks(p, code, Some(b), n - 1, u);
      var u', v' := RunCode(p, code, Some(b), n - 1, u), RunCode(p, code, Some(b), n - 1, v);
      ActionTwins(p, code, b, n, u, v, u', v', d);
      TwinsThen(u, u', RunCode(p, code, Some(b), n, u), v, v', RunCode(p, code, Some(b), n, v), b, d);
    }
  }

  lemma {:induction false} ActionTwins(p: Platform, code: seq<Action>, b: Id, n: nat, u: World, v: World, u': World,
                                       v': World, d: int)
    requires 0 < n <= |code| && u'.now == v'.now && Bounded(u'.now) && b < u'.now.next
    requires u' == RunCode(p, code, Some(b), n - 1, u) && v' == RunCode(p, code, Some(b), n - 1, v)
    ensures Twins(u', RunCode(p, code, Some(b), n, u), v', RunCode(p, code, Some(b), n, v), b, d)
    decreases code, 0, n - 1, 0
  {
    var action := code[n - 1];
    if action.Api? {
      TwinsOne(u', v', b, ApiUse, ApiUse, d);
    } else {
      assert (code decreases to action) && (action decreases to action.call);
      CallTwins(p, action.call, action.call, u', v');
      var whats := CallPart(p, action.call, u');
      TwinsOfNewer(u', RunCall(p, action.call, u').world, v', RunCall(p, action.call, v').world,
                   BlockOf(p, action.call, u'), whats, b, d);
    }
  }

  lemma {:induction false} HandlerTwins(p: Platform, code: seq<Action>, b: Id, what: What, what': What, u: World,
                                        v: World, d: int)
    requires u.now == v.now && Bounded(u.now) && b < u.now.next && SameWhat(what, what', d)
    ensures Twins(u, RunHandler(p, code, Some(b), what, u), v, RunHandler(p, code, Some(b), what', v), b, d)
    decreases code, 1
  {
    var u', v' := Log(u, Some(b), what), Log(v, Some(b), what');
    var u'', v'' := RunCode(p, code, Some(b), |code|, u'), RunCode(p, code, Some(b), |code|, v');
    TwinsOne(u, v, b, what, what', d);
    CodeTwins(p, code, b, |code|, u', v', d);
    TwinsThen(u, u', u'', v, v', v'', b, d);
    TwinsOne(u'', v'', b, Back, Back, d);
    TwinsThen(u, u'', Log(u'', Some(b), Back), v, v'', Log(v'', Some(b), Back), b, d);
  }

  lemma {:induction false} ConvertTwins(p: Platform, c: Call, c': Call, b: Id, k: nat, u: World, v: World)
    requires Alike(c, c') && k < |c.args| && u.now == v.now && Bounded(u.now) && b < u.now.next
    ensures Twins(u, RunConvert(p, c, b, k, u), v, RunConvert(p, c', b, k, v), b, Shift(c, c'))
    decreases c, 1, 0
  {
    ValueIsGiven(c, k);
    ValueIsGiven(c', k);
    if c.args[k].ty.convert {
      HandlerTwins(p, c.args[k].code, b, Convert(SlotOf(c, k), PlaceOf(c, k), Given(c, k)),
                   Convert(SlotOf(c', k), PlaceOf(c', k), Given(c', k)), u, v, Shift(c, c'));
    }
  }

  lemma {:induction false} InStepTwins(p: Platform, c: Call, c': Call, b: Id, k: nat, f: Frame, log: seq<Event>)
    requires Alike(c, c') && k < |c.args| && Bounded(f.world.now) && b < f.world.now.next
    ensures var g, h := InStep(p, c, b, k, f), InStep(p, c', b, k, WithLog(f, log));
            h == WithLog(g, h.world.log) && Twins(f.world, g.world, WithLog(f, log).world, h.world, b, Shift(c, c'))
    decreases c, 1, 2
  {
    var a := c.args[k];
    ValueIsGiven(c, k);
    ValueIsGiven(c', k);
    if IsCustom(a.ty.code) {
      InCustomTwins(p, c, c', b, k, f, log);
    } else {
      StoreWithLog(p, a.ty.code, a, ValueOf(c, k), SlotOf(c, k), f, log);
      StoreLog(p, a.ty.code, a, ValueOf(c, k), SlotOf(c, k), f);
    }
  }

  lemma {:induction false} InCustomTwins(p: Platform, c: Call, c': Call, b: Id, k: nat, f: Frame, log: seq<Event>)
    requires Alike(c, c') && k < |c.args| && Bounded(f.world.now) && b < f.world.now.next
    ensures var g, h := InCustom(p, c, b, k, f), InCustom(p, c', b, k, WithLog(f, log));
            h == WithLog(g, h.world.log) && Twins(f.world, g.world, WithLog(f, log).world, h.world, b, Shift(c, c'))
    decreases c, 1, 1
  {
    var a, v := c.args[k], WithLog(f, log).world;
    var u', v' := RunConvert(p, c, b, k, f.world), RunConvert(p, c', b, k, v);
    ConvertTwins(p, c, c', b, k, f.world, v);
    var g, h := InCustom(p, c, b, k, f), InCustom(p, c', b, k, WithLog(f, log));
    if Converted(a).Some? {
      var sv, slot := Converted(a).value, SlotOf(c, k);
      var stage := f.(world := u');
      assert WithLog(f, log).(world := v') == WithLog(stage, v'.log);
      StoreConvertedWithLog(p, a, sv, slot, stage, v'.log);
      StoreConvertedLog(p, a, sv, slot, stage);
    }
    TwinsOfLogs(f.world, u', v, v', f.world, g.world, v, h.world, b, Shift(c, c'));
  }

  lemma {:induction false} InTwins(p: Platform, c: Call, c': Call, u: World, v: World, k: nat)
    requires Alike(c, c') && k <= |c.args| && u.now == v.now && Bounded(u.now)
    ensures var f, g := InState(p, c, u, k), InState(p, c', v, k);
            && BlockOf(p, c', v) == BlockOf(p, c, u) && g == WithLog(f, g.world.log)
            && Twins(u, f.world, v, g.world, BlockOf(p, c, u), Shift(c, c'))
    decreases c, 1, 4 + k
  {
    EnterWithLog(p, c, c', u, v);
    EnterArgv(p, c, u);
    EnterArgv(p, c', v);
    if k > 0 {
      InTwins(p, c, c', u, v, k - 1);
      InNextTwins(p, c, c', u, v, k - 1);
      TwinsThen(u, InState(p, c, u, k - 1).world, InState(p, c, u, k).world,
                v, InState(p, c', v, k - 1).world, InState(p, c', v, k).world, BlockOf(p, c, u), Shift(c, c'));
    }
  }

  lemma {:induction false} InNextTwins(p: Platform, c: Call, c': Call, u: World, v: World, k: nat)
    requires Alike(c, c') && k < |c.args| && u.now == v.now && Bounded(u.now)
    requires BlockOf(p, c', v) == BlockOf(p, c, u)
    requires InState(p, c', v, k) == WithLog(InState(p, c, u, k), InState(p, c', v, k).world.log)
    ensures var f, g := InState(p, c, u, k), InState(p, c', v, k);
            var f', g' := InState(p, c, u, k + 1), InState(p, c', v, k + 1);
            g' == WithLog(f', g'.world.log) &&
            Twins(f.world, f'.world, g.world, g'.world, BlockOf(p, c, u), Shift(c, c'))
    decreases c, 1, 3
  {
    var b, f, g := BlockOf(p, c, u), InState(p, c, u, k), InState(p, c', v, k);
    EnterArgv(p, c, u);
    InPrefixArgv(p, c, b, k, Enter(p, c, u));
    if f.croaked {
      assert InState(p, c, u, k + 1) == f && InState(p, c', v, k + 1) == g;
    } else {
      InStepTwins(p, c, c', b, k, f, g.world.log);
      assert InState(p, c, u, k + 1) == InStep(p, c, b, k, f) && InState(p, c', v, k + 1) == InStep(p, c', b, k, g);
    }
  }

  lemma {:induction false} ForeignTwins(p: Platform, c: Call, c': Call, b: Id, f: Frame, g: Frame)
    requires Alike(c, c') && g == WithLog(f, g.world.log) && Bounded(f.world.now) && b < f.world.now.next
    ensures Twins(f.world, RunForeign(p, c, b, f), g.world, RunForeign(p, c', b, g), b, Shift(c, c'))
    decreases c, 1, 0
  {
    var u, v := SetArgv(f.world, None), SetArgv(g.world, None);
    var what := Foreign(f.targets);
    HandlerTwins(p, c.callbacks, b, what, what, u, v, Shift(c, c'));
    TwinsOfLogs(u, RunHandler(p, c.callbacks, Some(b), what, u), v, RunHandler(p, c.callbacks, Some(b), what, v),
                f.world, RunForeign(p, c, b, f), g.world, RunForeign(p, c', b, g), b, Shift(c, c'));
  }

  lemma {:induction false} OutStepTwins(p: Platform, c: Call, c': Call, b: Id, k: nat, u: World, v: World)
    requires Alike(c, c') && k < |c.args| && u.now == v.now && Bounded(u.now) && b < u.now.next
    ensures Twins(u, OutStep(p, c, b, k, u), v, OutStep(p, c', b, k, v), b, Shift(c, c'))
    decreases c, 1, 0
  {
    var a := c.args[k];
    var u', v' := RunPost(p, c, b, k, u), RunPost(p, c', b, k, v);
    ValueIsGiven(c, k);
    ValueIsGiven(c', k);
    if PostRuns(a) {
      HandlerTwins(p, a.after, b, Post(SlotOf(c, k), PlaceOf(c, k), Given(c, k)),
                   Post(SlotOf(c', k), PlaceOf(c', k), Given(c', k)), u, v, Shift(c, c'));
    }
    assert OutStep(p, c, b, k, u).now == OutStep(p, c', b, k, v).now;
    TwinsOfLogs(u, u', v, v', u, OutStep(p, c, b, k, u), v, OutStep(p, c', b, k, v), b, Shift(c, c'));
  }

  lemma {:induction false} OutTwins(p: Platform, c: Call, c': Call, u: World, v: World, k: nat)
    requires Alike(c, c') && k <= |c.args| && u.now == v.now && Bounded(u.now) && !Failed(c, |c.args|)
    ensures BlockOf(p, c', v) == BlockOf(p, c, u)
    ensures Twins(u, OutState(p, c, u, k), v, OutState(p, c', v, k), BlockOf(p, c, u), Shift(c, c'))
    decreases c, 1, 2 * |c.args| + 5 - k
  {
    var n, b, d := |c.args|, BlockOf(p, c, u), Shift(c, c');
    BlockLive(p, c, u);
    if k == n {
      var f, g := InState(p, c, u, n), InState(p, c', v, n);
      InTwins(p, c, c', u, v, n);
      InLive(p, c, u, 0, n);
      ForeignTwins(p, c, c', b, f, g);
      TwinsThen(u, f.world, OutState(p, c, u, n), v, g.world, OutState(p, c', v, n), b, d);
    } else {
      OutTwins(p, c, c', u, v, k + 1);
      OutLive(p, c, u, n, k + 1);
      var u', v' := OutState(p, c, u, k + 1), OutState(p, c', v, k + 1);
      OutStepTwins(p, c, c', b, k, u', v');
      TwinsThen(u, u', OutState(p, c, u, k), v, v', OutState(p, c', v, k), b, d);
    }
  }

  lemma {:induction false} LeaveTwins(p: Platform, c: Call, c': Call, b: Id, f: Frame, g: Frame)
    requires Alike(c, c') && g == WithLog(f, g.world.log) && Bounded(f.world.now) && b < f.world.now.next
    ensures var f', g' := Leave(p, c, b, f), Leave(p, c', b, g);
            g' == WithLog(f', g'.world.log) && Twins(f.world, f'.world, g.world, g'.world, b, Shift(c, c'))
    decreases c, 1, 0
  {
    SameExit(c.style, c'.style, c.ret.code);
    if FinishRuns(c) {
      assert !FreesEarly(c.ret.code);
      var u, v := SetArgv(SetArgv(f.world, None), Some(b)), SetArgv(SetArgv(g.world, None), Some(b));
      HandlerTwins(p, c.finish, b, Native, Native, u, v, Shift(c, c'));
      TwinsOfLogs(u, RunHandler(p, c.finish, Some(b), Native, u), v, RunHandler(p, c.finish, Some(b), Native, v),
                  f.world, Leave(p, c, b, f).world, g.world, Leave(p, c', b, g).world, b, Shift(c, c'));
    }
  }

  /** Calls that differ only in how they are made leave the same state and the same frame behind, and all
      their events, nested ones included, find the same state and are the same, except that their own
      handlers are told places on the stack shifted by the difference. */
  lemma {:induction false} CallTwins(p: Platform, c: Call, c': Call, u: World, v: World)
    requires Alike(c, c') && u.now == v.now && Bounded(u.now)
    ensures var f, g := RunCall(p, c, u), RunCall(p, c', v);
            g == WithLog(f, g.world.log) && Twins(u, f.world, v, g.world, BlockOf(p, c, u), Shift(c, c'))
    decreases c, 2
  {
    var n, b, d := |c.args|, BlockOf(p, c, u), Shift(c, c');
    var f, g := InState(p, c, u, n), InState(p, c', v, n);
    InTwins(p, c, c', u, v, n);
    EnterArgv(p, c, u);
    InPrefixArgv(p, c, b, n, Enter(p, c, u));
    if !Failed(c, n) {
      OutTwins(p, c, c', u, v, 0);
      OutLive(p, c, u, n, 0);
      var f', g' := f.(world := OutState(p, c, u, 0)), g.(world := OutState(p, c', v, 0));
      LeaveTwins(p, c, c', b, f', g');
      TwinsThen(u, f'.world, RunCall(p, c, u).world, v, g'.world, RunCall(p, c', v).world, b, d);
    }
  }

  /** So `$f->call(xs)` is f(xs): for the object in front, whatever it is, and any world. */
  lemma {:induction false} MethodIsSub(p: Platform, c: Call, function_: Value, w: World)
    requires c.style == ViaSub && Bounded(w.now)
    ensures var m := c.(style := ViaMethod, stack := [function_] + c.stack);
            var f, g := RunCall(p, c, w), RunCall(p, m, w);
            && g.croaked == f.croaked && g.world.now == f.world.now && g.targets == f.targets
            && Twins(w, f.world, w, g.world, BlockOf(p, c, w), 1)
  {
    var m := c.(style := ViaMethod, stack := [function_] + c.stack);
    assert Arguments(m) == c.stack;
    CallTwins(p, c, m, w, w);
  }
}
