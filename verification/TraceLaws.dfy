/** What the handlers of a call are given: the events a call itself announces, exactly, in terms of the
    Perl-level arguments; and that calling a function through its object or as an attached sub is
    the same but for the place of the arguments on the Perl stack. */
module TraceLaws {
  import opened TypeCodes
  import opened CallModel
  import opened HeapLaws
  import opened ArgvLaws
  import opened KeeperEffects
  import opened KeeperLaws
  import opened EventLaws
  import opened CodeLaws

  // ---- Perl-level arguments ----

  /** What the caller wrote between the parentheses: all of the stack for an attached sub, what comes
      after the function object for a method call. */
  function Arguments(c: Call): seq<Value> {
    match c.style
    case ViaSub => c.stack
    case ViaMethod => if c.stack == [] then [] else c.stack[1..]
  }

  /** Argument k, undef if it is missing, and its place on the stack. */
  function Given(c: Call, k: nat): Value {
    if k < |Arguments(c)| then Arguments(c)[k] else Undef
  }

  function PlaceOf(c: Call, k: nat): nat {
    match c.style
    case ViaSub => k
    case ViaMethod => k + 1
  }

  lemma {:induction false} ValueIsGiven(c: Call, k: nat)
    ensures ValueOf(c, k) == Given(c, k) && Extra(c.style) + k == PlaceOf(c, k)
  {
  }

  // ---- The events of one call ----

  /** Control passes from a call to a handler or to the foreign function. */
  predicate Passes(what: What) {
    what.Convert? || what.Post? || what.Native? || what.Foreign?
  }

  /** Where the call with argument block b passed control on, in order. */
  function Passed(log: seq<Event>, b: Id): seq<What> {
    if log == [] then []
    else
      var last := log[|log| - 1];
      Passed(log[..|log| - 1], b) + if last.owner == Some(b) && Passes(last.what) then [last.what] else []
  }

  lemma {:induction false} PassedThen(first: seq<Event>, later: seq<Event>, b: Id)
    ensures Passed(first + later, b) == Passed(first, b) + Passed(later, b)
  {
    if later == [] {
      assert first + later == first;
    } else {
      var both := first + later;
      assert both[..|both| - 1] == first + later[..|later| - 1];
      PassedThen(first, later[..|later| - 1], b);
    }
  }

  /** The events after u up to v: none belongs to a call older than b, and these are the ones at which
      b itself passed control on. */
  ghost predicate Part(u: World, v: World, b: Id, whats: seq<What>) {
    && u.log <= v.log
    && (forall j :: |u.log| <= j < |v.log| ==> v.log[j].owner.Some? && v.log[j].owner.value >= b)
    && Passed(v.log[|u.log|..], b) == whats
  }

  lemma {:induction false} PartNothing(u: World, v: World, b: Id)
    requires v.log == u.log
    ensures Part(u, v, b, [])
  {
  }

  lemma {:induction false} PartOne(u: World, v: World, b: Id, what: What)
    requires v.log == u.log + [Event(Some(b), what, u.now)]
    ensures Part(u, v, b, if Passes(what) then [what] else [])
  {
    var e := v.log[|u.log|];
    assert v.log[|u.log|..] == [e] && [e][..0] == [];
    assert Passed([], b) == [];
  }

  lemma {:induction false} PartThen(u: World, v: World, w: World, b: Id, first: seq<What>, later: seq<What>,
                                    both: seq<What>)
    requires Part(u, v, b, first) && Part(v, w, b, later) && both == first + later
    ensures Part(u, w, b, both)
  {
    var m, n := v.log[|u.log|..], w.log[|v.log|..];
    assert w.log[|u.log|..] == m + n;
    PassedThen(m, n, b);
    forall j | |u.log| <= j < |w.log|
      ensures w.log[j].owner.Some? && w.log[j].owner.value >= b
    {
      if j < |v.log| {
        assert w.log[j] == v.log[j];
      }
    }
  }

  /** Events of newer calls only. */
  lemma {:induction false} PartOfNewer(u: World, v: World, b: Id, newer: Id, whats: seq<What>)
    requires Part(u, v, newer, whats) && b < newer
    ensures Part(u, v, b, [])
  {
    NoneOf(v.log[|u.log|..], b);
  }

  lemma {:induction false} NoneOf(log: seq<Event>, b: Id)
    requires forall j :: 0 <= j < |log| ==> log[j].owner != Some(b)
    ensures Passed(log, b) == []
  {
    if log != [] {
      NoneOf(log[..|log| - 1], b);
    }
  }

  /** Only the log counts. */
  lemma {:induction false} PartOfLogs(u: World, v: World, u': World, v': World, b: Id, whats: seq<What>)
    requires Part(u, v, b, whats) && u'.log == u.log && v'.log == v.log
    ensures Part(u', v', b, whats)
  {
  }

  // ---- What a call announces, by its arguments ----

  function ConvertAt(c: Call, k: nat): seq<What>
    requires k < |c.args|
  {
    var a := c.args[k];
    if IsCustom(a.ty.code) && a.ty.convert then [Convert(SlotOf(c, k), PlaceOf(c, k), Given(c, k))] else []
  }

  /** perl_to_native of the first k arguments, or up to the one that croaks. */
  function Converts(c: Call, k: nat): seq<What>
    requires k <= |c.args|
  {
    if k == 0 then []
    else if Failed(c, k - 1) then Converts(c, k - 1)
    else Converts(c, k - 1) + ConvertAt(c, k - 1)
  }

  function PostAt(c: Call, k: nat): seq<What>
    requires k < |c.args|
  {
    var a := c.args[k];
    if IsCustom(a.ty.code) && a.ty.post then [Post(SlotOf(c, k), PlaceOf(c, k), Given(c, k))] else []
  }

  /** The post handlers of the last argument down to argument k. */
  function Posts(c: Call, k: nat): seq<What>
    requires k <= |c.args|
    decreases |c.args| - k
  {
    if k == |c.args| then [] else Posts(c, k + 1) + PostAt(c, k)
  }

  /** Return types that have an arm for native_to_perl: the customizable scalars but long double. */
  predicate HandlesReturn(code: Code) {
    IsCustom(code) && IsScalar(Stem(code)) && IsCustomizable(Stem(code)) && Stem(code) != LONG_DOUBLE
  }

  /** Codes a return descriptor can carry. */
  predicate IsReturn(code: Code) {
    code == VOID || IsArgument(code)
  }

  /** native_to_perl runs exactly for those, if the type has one. */
  lemma {:induction false} FinishRunsIff(c: Call)
    requires IsReturn(c.ret.code)
    ensures FinishRuns(c) <==> HandlesReturn(c.ret.code) && c.ret.back
  {
    ExitIsHandler(c.style, c.ret.code);
    if IsCustom(c.ret.code) {
      CustomBits(c.ret.code);
      ScalarBits(Stem(c.ret.code));
    }
  }

  lemma {:induction false} ExitIsHandler(style: Style, code: Code)
    ensures ExitOf(VariantOf(style, code), code) == ExitHandler <==>
            IsCustom(code) &&
            (IsInteger(Basis(code)) || Basis(code) == FLOAT || Basis(code) == DOUBLE || Basis(code) == OPAQUE ||
             Basis(code) == RECORD || Basis(code) == RECORD_VALUE)
  {
  }

  function NativeAt(c: Call): seq<What> {
    if HandlesReturn(c.ret.code) && c.ret.back then [Native] else []
  }

  // ---- It is what the log shows ----

  lemma {:induction false} CodePart(p: Platform, code: seq<Action>, b: Id, n: nat, w: World)
    requires n <= |code| && Bounded(w.now) && b < w.now.next
    ensures Part(w, RunCode(p, code, Some(b), n, w), b, [])
    decreases code, 0, n
  {
    if n == 0 {
      PartNothing(w, w, b);
    } else {
      CodePart(p, code, b, n - 1, w);
      CodeFreesExactlyItsBlocks(p, code, Some(b), n - 1, w);
      var u := RunCode(p, code, Some(b), n - 1, w);
      ActionPart(p, code, b, n, w, u);
      PartThen(w, u, RunCode(p, code, Some(b), n, w), b, [], [], []);
    }
  }

  lemma {:induction false} ActionPart(p: Platform, code: seq<Action>, b: Id, n: nat, w: World, u: World)
    requires 0 < n <= |code| && u == RunCode(p, code, Some(b), n - 1, w) && Bounded(u.now) && b < u.now.next
    ensures Part(u, RunCode(p, code, Some(b), n, w), b, [])
    decreases code, 0, n - 1, 0
  {
    var action := code[n - 1];
    if action.Api? {
      PartOne(u, Log(u, Some(b), ApiUse), b, ApiUse);
    } else {
      assert (code decreases to action) && (action decreases to action.call);
      var whats := CallPart(p, action.call, u);
      PartOfNewer(u, RunCall(p, action.call, u).world, b, BlockOf(p, action.call, u), whats);
    }
  }

  lemma {:induction false} HandlerPart(p: Platform, code: seq<Action>, b: Id, what: What, w: World)
    requires Bounded(w.now) && b < w.now.next && Passes(what)
    ensures Part(w, RunHandler(p, code, Some(b), what, w), b, [what])
    decreases code, 1
  {
    var u := Log(w, Some(b), what);
    var v := RunCode(p, code, Some(b), |code|, u);
    PartOne(w, u, b, what);
    CodePart(p, code, b, |code|, u);
    PartThen(w, u, v, b, [what], [], [what]);
    PartOne(v, Log(v, Some(b), Back), b, Back);
    PartThen(w, v, Log(v, Some(b), Back), b, [what], [], [what]);
  }

  lemma {:induction false} InStepPart(p: Platform, c: Call, b: Id, k: nat, f: Frame)
    requires k < |c.args| && Bounded(f.world.now) && b < f.world.now.next
    ensures Part(f.world, InStep(p, c, b, k, f).world, b, ConvertAt(c, k))
    decreases c, 1, 0
  {
    var a, g := c.args[k], InStep(p, c, b, k, f).world;
    InStepLog(p, c, b, k, f);
    if ConvertRuns(a) {
      ValueIsGiven(c, k);
      HandlerPart(p, a.code, b, Convert(SlotOf(c, k), PlaceOf(c, k), Given(c, k)), f.world);
      PartOfLogs(f.world, RunConvert(p, c, b, k, f.world), f.world, g, b, ConvertAt(c, k));
    } else {
      PartNothing(f.world, g, b);
    }
  }

  lemma {:induction false} InPrefixPart(p: Platform, c: Call, w: World, k: nat)
    requires k <= |c.args| && Bounded(w.now)
    ensures Part(w, InState(p, c, w, k).world, BlockOf(p, c, w), Converts(c, k))
    decreases c, 1, 2 + k
  {
    if k == 0 {
      EnterArgv(p, c, w);
      PartNothing(w, InState(p, c, w, 0).world, BlockOf(p, c, w));
    } else {
      InPrefixPart(p, c, w, k - 1);
      InNextPart(p, c, w, k - 1);
      if !Failed(c, k - 1) {
        PartThen(w, InState(p, c, w, k - 1).world, InState(p, c, w, k).world, BlockOf(p, c, w), Converts(c, k - 1),
                 ConvertAt(c, k - 1), Converts(c, k));
      }
    }
  }

  lemma {:induction false} InNextPart(p: Platform, c: Call, w: World, k: nat)
    requires k < |c.args| && Bounded(w.now)
    ensures if Failed(c, k) then InState(p, c, w, k + 1) == InState(p, c, w, k)
            else Part(InState(p, c, w, k).world, InState(p, c, w, k + 1).world, BlockOf(p, c, w), ConvertAt(c, k))
    decreases c, 1, 1
  {
    var b, f := BlockOf(p, c, w), InState(p, c, w, k);
    EnterArgv(p, c, w);
    InPrefixArgv(p, c, b, k, Enter(p, c, w));
    if Failed(c, k) {
      assert InState(p, c, w, k + 1) == f;
    } else {
      InStepPart(p, c, b, k, f);
      assert InState(p, c, w, k + 1) == InStep(p, c, b, k, f);
    }
  }

  lemma {:induction false} ForeignPart(p: Platform, c: Call, b: Id, f: Frame)
    requires Bounded(f.world.now) && b < f.world.now.next
    ensures Part(f.world, RunForeign(p, c, b, f), b, [Foreign(f.targets)])
    decreases c, 1, 0
  {
    var before := SetArgv(f.world, None);
    HandlerPart(p, c.callbacks, b, Foreign(f.targets), before);
    PartOfLogs(before, RunHandler(p, c.callbacks, Some(b), Foreign(f.targets), before), f.world,
               RunForeign(p, c, b, f), b, [Foreign(f.targets)]);
  }

  lemma {:induction false} OutStepPart(p: Platform, c: Call, b: Id, k: nat, w: World)
    requires k < |c.args| && Bounded(w.now) && b < w.now.next
    ensures Part(w, OutStep(p, c, b, k, w), b, PostAt(c, k))
    decreases c, 1, 0
  {
    var a, u, v := c.args[k], RunPost(p, c, b, k, w), OutStep(p, c, b, k, w);
    OutArms(a.ty.code);
    assert v.log == u.log;
    if PostRuns(a) {
      ValueIsGiven(c, k);
      HandlerPart(p, a.after, b, Post(SlotOf(c, k), PlaceOf(c, k), Given(c, k)), w);
      PartOfLogs(w, u, w, v, b, PostAt(c, k));
    } else {
      PartNothing(w, v, b);
    }
  }

  lemma {:induction false} OutArms(code: Code)
    ensures OutKindOf(code) == OutCustom <==> IsCustom(code)
  {
  }

  lemma {:induction false} OutSuffixPart(p: Platform, c: Call, w: World, k: nat)
    requires k <= |c.args| && Bounded(w.now) && !Failed(c, |c.args|)
    ensures var b, f := BlockOf(p, c, w), InState(p, c, w, |c.args|);
            Part(w, OutState(p, c, w, k), b, Converts(c, |c.args|) + [Foreign(f.targets)] + Posts(c, k))
    decreases c, 1, 2 * |c.args| + 3 - k
  {
    var n, b, f := |c.args|, BlockOf(p, c, w), InState(p, c, w, |c.args|);
    var called := Converts(c, n) + [Foreign(f.targets)];
    BlockLive(p, c, w);
    if k == n {
      InPrefixPart(p, c, w, n);
      InLive(p, c, w, n, n);
      ForeignPart(p, c, b, f);
      PartThen(w, f.world, OutState(p, c, w, n), b, Converts(c, n), [Foreign(f.targets)], called + Posts(c, n));
    } else {
      OutSuffixPart(p, c, w, k + 1);
      OutLive(p, c, w, n, k + 1);
      OutStepPart(p, c, b, k, OutState(p, c, w, k + 1));
      assert (called + Posts(c, k + 1)) + PostAt(c, k) == called + Posts(c, k);
      PartThen(w, OutState(p, c, w, k + 1), OutState(p, c, w, k), b, called + Posts(c, k + 1), PostAt(c, k),
               called + Posts(c, k));
    }
  }

  lemma {:induction false} BlockLive(p: Platform, c: Call, w: World)
    requires Bounded(w.now) && !Failed(c, |c.args|)
    ensures BlockOf(p, c, w) in InState(p, c, w, |c.args|).world.now.live
  {
    EnterArgv(p, c, w);
    InPrefixArgv(p, c, BlockOf(p, c, w), |c.args|, Enter(p, c, w));
  }

  lemma {:induction false} LeavePart(p: Platform, c: Call, b: Id, f: Frame)
    requires Bounded(f.world.now) && b < f.world.now.next
    ensures Part(f.world, Leave(p, c, b, f).world, b, if FinishRuns(c) then [Native] else [])
    decreases c, 1, 0
  {
    if FinishRuns(c) {
      assert !FreesEarly(c.ret.code);
      var own := SetArgv(SetArgv(f.world, None), Some(b));
      HandlerPart(p, c.finish, b, Native, own);
      PartOfLogs(own, RunHandler(p, c.finish, Some(b), Native, own), f.world, Leave(p, c, b, f).world, b, [Native]);
    } else {
      PartNothing(f.world, Leave(p, c, b, f).world, b);
    }
  }

  /** Every event of a call and of what nests in it belongs to that call or to a newer one. */
  lemma {:induction false} CallPart(p: Platform, c: Call, w: World) returns (whats: seq<What>)
    requires Bounded(w.now)
    ensures Part(w, RunCall(p, c, w).world, BlockOf(p, c, w), whats)
    ensures whats == if Failed(c, |c.args|) then Converts(c, |c.args|)
            else Converts(c, |c.args|) + [Foreign(InState(p, c, w, |c.args|).targets)] + Posts(c, 0) +
                 (if FinishRuns(c) then [Native] else [])
    decreases c, 2
  {
    var n, b := |c.args|, BlockOf(p, c, w);
    EnterArgv(p, c, w);
    InPrefixArgv(p, c, b, n, Enter(p, c, w));
    whats := Converts(c, n);
    if Failed(c, n) {
      InPrefixPart(p, c, w, n);
    } else {
      var f, v := InState(p, c, w, n), OutState(p, c, w, 0);
      OutSuffixPart(p, c, w, 0);
      OutLive(p, c, w, n, 0);
      BlockLive(p, c, w);
      LeavePart(p, c, b, f.(world := v));
      var finish := if FinishRuns(c) then [Native] else [];
      whats := Converts(c, n) + [Foreign(f.targets)] + Posts(c, 0) + finish;
      PartThen(w, v, RunCall(p, c, w).world, b, Converts(c, n) + [Foreign(f.targets)] + Posts(c, 0), finish, whats);
    }
  }

  /** What a call hands out, exactly, read off the log: perl_to_native of every custom argument that the
      loop reaches, in order, then the foreign function, then the post handlers in reverse order, then
      native_to_perl, once, if the return type has one and an arm for it.  Both handlers of argument k get
      its first slot, its place on the Perl stack, and the k-th Perl-level argument itself. */
  lemma {:induction false} CallPasses(p: Platform, c: Call, w: World)
    requires Bounded(w.now) && IsReturn(c.ret.code)
    ensures var b, n, log := BlockOf(p, c, w), |c.args|, RunCall(p, c, w).world.log;
            && w.log <= log
            && Passed(log[|w.log|..], b) ==
               if Failed(c, n) then Converts(c, n)
               else Converts(c, n) + [Foreign(InState(p, c, w, n).targets)] + Posts(c, 0) + NativeAt(c)
  {
    FinishRunsIff(c);
    var whats := CallPart(p, c, w);
  }

  // ---- Checks and references ----

  /** Types whose value must be an object of their class: objects, and records passed by value. */
  predicate NeedsInstance(code: Code) {
    Shape(code) == SHAPE_OBJECT || Stem(code) == RECORD_VALUE
  }

  /** Argument a has a value to check, and it is not of the class its type demands. */
  predicate WrongClass(a: Arg) {
    NeedsInstance(a.ty.code) && !a.instance && !(IsCustom(a.ty.code) && a.ty.convert && a.reply.None?)
  }

  lemma {:induction false} FailsIff(a: Arg)
    requires IsArgument(a.ty.code)
    ensures ArgFails(a) <==> WrongClass(a)
  {
    ArmBits(a.ty.code);
    if IsCustom(a.ty.code) {
      ArmBits(Basis(a.ty.code));
    } else if IsScalar(a.ty.code) {
      ScalarBits(a.ty.code);
    } else {
      ShapedArms(a.ty.code);
      UnitStems(a.ty.code);
    }
  }

  lemma {:induction false} UnitStems(code: Code)
    requires IsArgument(code) && !IsScalar(code) && !IsCustom(code)
    ensures Stem(code) != RECORD_VALUE
  {
  }

  /** A call croaks exactly if some argument is no instance of the class its type demands; every other value
      is accepted. */
  lemma {:induction false} CallCroaksIff(p: Platform, c: Call, w: World)
    requires Bounded(w.now) && forall k :: 0 <= k < |c.args| ==> IsArgument(c.args[k].ty.code)
    ensures RunCall(p, c, w).croaked <==> exists k :: 0 <= k < |c.args| && WrongClass(c.args[k])
  {
    CurrentArgvAfterCall(p, c, w);
    forall k | 0 <= k < |c.args|
      ensures ArgFails(c.args[k]) <==> WrongClass(c.args[k])
    {
      FailsIff(c.args[k]);
    }
  }

  /** A closure argument: on the way in the call takes a reference to the k-th Perl-level argument and to what
      it refers to, and drops both again on its way out. */
  lemma {:induction false} ClosureHeld(p: Platform, c: Call, w: World, k: nat, sv: Sv)
    requires Bounded(w.now) && k < |c.args| && c.args[k].ty.code == CLOSURE && !Failed(c, k)
    ensures var s, t := InState(p, c, w, k).world.now, InState(p, c, w, k + 1).world.now;
            t.keepers == s.keepers && Count(t.count, sv) == Count(s.count, sv) + LentBy(Given(c, k), sv)
    ensures !Failed(c, |c.args|) ==>
              var s, t := OutState(p, c, w, k + 1).now, OutState(p, c, w, k).now;
              t.keepers == s.keepers && Count(t.count, sv) == Count(s.count, sv) - LentBy(Given(c, k), sv)
  {
    EnterArgv(p, c, w);
    InPrefixArgv(p, c, BlockOf(p, c, w), k, Enter(p, c, w));
    ClosureTaken(p, c, BlockOf(p, c, w), k, InState(p, c, w, k), sv);
    assert InState(p, c, w, k + 1) == InStep(p, c, BlockOf(p, c, w), k, InState(p, c, w, k));
    if !Failed(c, |c.args|) {
      ClosureGivenBack(p, c, BlockOf(p, c, w), k, OutState(p, c, w, k + 1), sv);
      assert OutState(p, c, w, k) == OutStep(p, c, BlockOf(p, c, w), k, OutState(p, c, w, k + 1));
    }
  }

  lemma {:induction false} ClosureTaken(p: Platform, c: Call, b: Id, k: nat, f: Frame, sv: Sv)
    requires k < |c.args| && c.args[k].ty.code == CLOSURE && !f.croaked
    ensures var s, t := f.world.now, InStep(p, c, b, k, f).world.now;
            t.keepers == s.keepers && Count(t.count, sv) == Count(s.count, sv) + LentBy(Given(c, k), sv)
  {
    ValueIsGiven(c, k);
    ClosureArms(CLOSURE);
    assert InStep(p, c, b, k, f) == Store(p, CLOSURE, c.args[k], ValueOf(c, k), SlotOf(c, k), f);
    StoreKeepers(p, CLOSURE, c.args[k], ValueOf(c, k), SlotOf(c, k), f, sv);
  }

  lemma {:induction false} ClosureGivenBack(p: Platform, c: Call, b: Id, k: nat, u: World, sv: Sv)
    requires k < |c.args| && c.args[k].ty.code == CLOSURE
    ensures var s, t := u.now, OutStep(p, c, b, k, u).now;
            t.keepers == s.keepers && Count(t.count, sv) == Count(s.count, sv) - LentBy(Given(c, k), sv)
  {
    ValueIsGiven(c, k);
  }
}
