/** Lifetime of converted values: what happens to the keeper of an argument between its conversion
    and its own pop, whatever runs, nests and croaks meanwhile. */
module LifetimeLaws {
  import opened TypeCodes
  import opened CallModel
  import opened HeapLaws
  import opened ArgvLaws
  import opened KeeperEffects
  import opened KeeperLaws
  import opened EventLaws
  import opened PlainRuns

  /** After perl_to_native of argument k, before its value is kept. */
  function Before(p: Platform, c: Call, w: World, k: nat): Shared
    requires k < |c.args|
  {
    RunConvert(p, c, BlockOf(p, c, w), k, InState(p, c, w, k).world).now
  }

  /** After the post handler of argument k, before its pop. */
  function AfterPost(p: Platform, c: Call, w: World, k: nat): World
    requires k < |c.args|
  {
    RunPost(p, c, BlockOf(p, c, w), k, OutState(p, c, w, k + 1))
  }

  /** What happens to the stack from the end of the conversion of argument k to its own pop: later
      conversions, the foreign call and its callbacks, the turns of later arguments and its own post
      handler.  A call that croaks ends in its later conversions. */
  function Span(c: Call, k: nat): Effect
    requires k < |c.args|
  {
    if Failed(c, |c.args|) then InEffect(c, k + 1, |c.args|) else Then(RoundEffect(c, k + 1, k + 1), PostEffect(c, k))
  }

  function SpanEnd(p: Platform, c: Call, w: World, k: nat): World
    requires k < |c.args|
  {
    if Failed(c, |c.args|) then InState(p, c, w, |c.args|).world else AfterPost(p, c, w, k)
  }

  /** What the conversion of a custom argument puts on the stack: the handler's reply, nothing if that is the
      empty list, or a copy of the argument if the type has no handler. */
  lemma {:induction false} ConversionGives(p: Platform, c: Call, w: World, k: nat)
    requires Bounded(w.now) && k < |c.args| && !Failed(c, k + 1) && IsCustom(c.args[k].ty.code)
    ensures var a := c.args[k];
            InState(p, c, w, k + 1).world.now.keepers ==
              Before(p, c, w, k).keepers +
                if !a.ty.convert then [a.copy] else if a.reply.Some? then [a.reply.value] else []
  {
    if Converted(c.args[k]).Some? {
      ConversionKeeps(p, c, w, k);
    } else {
      NotFailedBefore(c, k, k + 1);
      InLive(p, c, w, k, k);
      assert InState(p, c, w, k + 1) == InStep(p, c, BlockOf(p, c, w), k, InState(p, c, w, k));
    }
  }

  /** The conversion puts the value on top of the stack and holds one more reference to it. */
  lemma {:induction false} ConversionKeeps(p: Platform, c: Call, w: World, k: nat)
    requires Bounded(w.now) && k < |c.args| && !Failed(c, k + 1) && IsCustom(c.args[k].ty.code) &&
             Converted(c.args[k]).Some?
    ensures var s, t, v := Before(p, c, w, k), InState(p, c, w, k + 1).world.now, Converted(c.args[k]).value;
            t.keepers == s.keepers + [v] && Count(t.count, v) == Count(s.count, v) + 1
  {
    var b, a, v := BlockOf(p, c, w), c.args[k], Converted(c.args[k]).value;
    NotFailedBefore(c, k, k + 1);
    InLive(p, c, w, k, k);
    var f := InState(p, c, w, k);
    var g := f.(world := RunConvert(p, c, b, k, f.world));
    StoreConvertedKeepers(p, a, v, SlotOf(c, k), g, v);
    assert InState(p, c, w, k + 1) == InStep(p, c, b, k, f) == StoreConverted(p, a, v, SlotOf(c, k), g);
    assert (g.world.now.keepers + [v])[..|g.world.now.keepers|] == g.world.now.keepers;
  }

  // ---- The pop ----

  lemma {:induction false} OutStepPops(p: Platform, c: Call, b: Id, k: nat, w: World)
    requires k < |c.args| && IsCustom(c.args[k].ty.code)
    ensures OutStep(p, c, b, k, w).now.keepers == Drop(RunPost(p, c, b, k, w).now.keepers, 1)
  {
    ClosureArms(c.args[k].ty.code);
    var u := RunPost(p, c, b, k, w).now;
    assert OutStep(p, c, b, k, w).now == Unkeep(u);
    UnkeepEffect(u, 0);
    assert Act(Effect(1, []), u.keepers) == Drop(u.keepers, 1);
  }

  /** What the pop for custom argument k finds: the stack of its conversion with its value on top,
      changed by the effect of all that ran in between.  So it takes the keeper pushed for that very
      argument, and leaves the stack as it was before its conversion, exactly when that effect
      restores the stack. */
  lemma {:induction false} PopTakesOwnKeeper(p: Platform, c: Call, w: World, k: nat)
    requires Bounded(w.now) && k < |c.args| && !Failed(c, |c.args|)
    requires IsCustom(c.args[k].ty.code) && Converted(c.args[k]).Some?
    ensures var below, v := Before(p, c, w, k).keepers, Converted(c.args[k]).value;
            var found := AfterPost(p, c, w, k).now.keepers;
            && found == Act(Span(c, k), below + [v])
            && (found == below + [v] <==> Restores(Span(c, k), below + [v]))
            && (found == below + [v] ==> OutState(p, c, w, k).now.keepers == below)
  {
    NotFailedBefore(c, k + 1, |c.args|);
    ConversionKeeps(p, c, w, k);
    SpanSees(p, c, w, k, 0);
    OutStepPops(p, c, BlockOf(p, c, w), k, OutState(p, c, w, k + 1));
    assert OutState(p, c, w, k) == OutStep(p, c, BlockOf(p, c, w), k, OutState(p, c, w, k + 1));
    var below, v := Before(p, c, w, k).keepers, Converted(c.args[k]).value;
    RestoresIff(Span(c, k), below + [v]);
    DropIs(below + [v], 1);
    assert (below + [v])[..|below|] == below;
  }

  // ---- Alive until then ----

  /** The moments of the events in between, counted from the end of the conversion. */
  function SpanMoments(c: Call, k: nat, sv: Sv): seq<Moment>
    requires k < |c.args|
  {
    if Failed(c, |c.args|) then InMoments(c, k + 1, |c.args|, sv)
    else RoundMoments(c, k + 1, k + 1, sv) + Shift(OutMoment(c, k + 1, k + 1, sv), PostMoments(c, k, sv))
  }

  /** The end of it all, right before the pop. */
  function SpanMoment(c: Call, k: nat, sv: Sv): Moment
    requires k < |c.args|
  {
    if Failed(c, |c.args|) then InMoment(c, k + 1, |c.args|, sv)
    else
      var m := OutMoment(c, k + 1, k + 1, sv);
      Moment(Then(m.effect, PostEffect(c, k)), m.extra + PostLeak(c, k, sv))
  }

  lemma {:induction false} SpanSees(p: Platform, c: Call, w: World, k: nat, sv: Sv)
    requires Bounded(w.now) && k < |c.args|
    ensures Sees(InState(p, c, w, k + 1).world, SpanEnd(p, c, w, k), SpanMoments(c, k, sv), sv)
    ensures Reached(InState(p, c, w, k + 1).world.now, SpanEnd(p, c, w, k).now, SpanMoment(c, k, sv), sv)
    ensures SpanMoment(c, k, sv).effect == Span(c, k)
  {
    if Failed(c, |c.args|) {
      InSees(p, c, w, k + 1, |c.args|, sv);
      InReached(p, c, w, k + 1, |c.args|, sv);
    } else {
      ReturningSpanSees(p, c, w, k, sv);
    }
  }

  lemma {:induction false} ReturningSpanSees(p: Platform, c: Call, w: World, k: nat, sv: Sv)
    requires Bounded(w.now) && k < |c.args| && !Failed(c, |c.args|)
    ensures Sees(InState(p, c, w, k + 1).world, AfterPost(p, c, w, k), SpanMoments(c, k, sv), sv)
    ensures Reached(InState(p, c, w, k + 1).world.now, AfterPost(p, c, w, k).now, SpanMoment(c, k, sv), sv)
  {
    var b, start, v := BlockOf(p, c, w), InState(p, c, w, k + 1).world, OutState(p, c, w, k + 1);
    var m := OutMoment(c, k + 1, k + 1, sv);
    RoundSees(p, c, w, k + 1, k + 1, sv);
    OutReached(p, c, w, k + 1, k + 1, sv);
    OutLive(p, c, w, k + 1, k + 1);
    PostSees(p, c, b, k, v, sv);
    PostKeepers(p, c, b, k, v, sv);
    SeesThen(start, v, AfterPost(p, c, w, k), RoundMoments(c, k + 1, k + 1, sv), m, PostMoments(c, k, sv),
             SpanMoments(c, k, sv), sv);
    ActThen(m.effect, PostEffect(c, k), start.now.keepers);
  }

  /** The effect leaves this stack standing, putting back at least what it takes off. */
  predicate Covers(e: Effect, stack: seq<Sv>) {
    var taken := if e.drop < |stack| then e.drop else |stack|;
    stack[|stack| - taken..] <= e.push
  }

  lemma {:induction false} CoversIff(e: Effect, stack: seq<Sv>)
    ensures stack <= Act(e, stack) <==> Covers(e, stack)
  {
    DropIs(stack, e.drop);
    var taken := if e.drop < |stack| then e.drop else |stack|;
    var kept, gone := stack[..|stack| - taken], stack[|stack| - taken..];
    assert Drop(stack, e.drop) == kept && stack == kept + gone;
    if stack <= Act(e, stack) {
      assert gone == Act(e, stack)[|kept|..|stack|] == e.push[..taken];
    }
    if gone <= e.push {
      assert Act(e, stack)[..|stack|] == kept + e.push[..taken];
    }
  }

  /** References to sv at moment m are no fewer than at the start, on this stack. */
  predicate Holds(m: Moment, stack: seq<Sv>, sv: Sv) {
    Occurs(Act(m.effect, stack), sv) + m.extra >= Occurs(stack, sv)
  }

  ghost predicate AllCover(moments: seq<Moment>, stack: seq<Sv>) {
    forall i :: 0 <= i < |moments| ==> Covers(moments[i].effect, stack)
  }

  ghost predicate AllHold(moments: seq<Moment>, stack: seq<Sv>, sv: Sv) {
    forall i :: 0 <= i < |moments| ==> Holds(moments[i], stack, sv)
  }

  /** At every event from one point of a run to another, and at the latter itself, the stack of the
      former is still there. */
  ghost predicate KeptBetween(start: World, end: World) {
    && start.now.keepers <= end.now.keepers
    && forall j :: |start.log| <= j < |end.log| ==> start.now.keepers <= end.log[j].at.keepers
  }

  /** And sv has at least so many references. */
  ghost predicate HeldBetween(start: World, end: World, least: int, sv: Sv) {
    && Count(end.now.count, sv) >= least
    && forall j :: |start.log| <= j < |end.log| ==> Count(end.log[j].at.count, sv) >= least
  }

  lemma {:induction false} KeptIff(start: World, end: World, moments: seq<Moment>, m: Moment, sv: Sv)
    requires Sees(start, end, moments, sv) && Reached(start.now, end.now, m, sv)
    ensures var stack := start.now.keepers;
            KeptBetween(start, end) <==> AllCover(moments, stack) && Covers(m.effect, stack)
  {
    var stack := start.now.keepers;
    CoversIff(m.effect, stack);
    forall i | 0 <= i < |moments|
      ensures stack <= end.log[|start.log| + i].at.keepers <==> Covers(moments[i].effect, stack)
    {
      CoversIff(moments[i].effect, stack);
    }
    forall j | |start.log| <= j < |end.log|
      ensures stack <= end.log[j].at.keepers <==> Covers(moments[j - |start.log|].effect, stack)
    {
      assert j == |start.log| + (j - |start.log|);
    }
  }

  lemma {:induction false} HeldIff(start: World, end: World, moments: seq<Moment>, m: Moment, sv: Sv)
    requires Sees(start, end, moments, sv) && Reached(start.now, end.now, m, sv)
    ensures var stack := start.now.keepers;
            HeldBetween(start, end, Count(start.now.count, sv), sv) <==>
            AllHold(moments, stack, sv) && Holds(m, stack, sv)
  {
    var stack, least := start.now.keepers, Count(start.now.count, sv);
    forall i | 0 <= i < |moments|
      ensures Count(end.log[|start.log| + i].at.count, sv) >= least <==> Holds(moments[i], stack, sv)
    {
    }
    forall j | |start.log| <= j < |end.log|
      ensures Count(end.log[j].at.count, sv) >= least <==> Holds(moments[j - |start.log|], stack, sv)
    {
      assert j == |start.log| + (j - |start.log|);
    }
  }

  /** From the end of the conversion of argument k to its pop (or the end of the call, if a later
      argument makes it croak): at every event, at every depth, points where handlers and callbacks
      give control back included, and right before the pop itself, the stack with the value of the
      argument on top is still there. */
  ghost predicate KeptThroughout(p: Platform, c: Call, w: World, k: nat)
    requires k < |c.args|
  {
    KeptBetween(InState(p, c, w, k + 1).world, SpanEnd(p, c, w, k))
  }

  /** And it is referenced at least once more than before its conversion. */
  ghost predicate HeldThroughout(p: Platform, c: Call, w: World, k: nat, sv: Sv)
    requires k < |c.args|
  {
    HeldBetween(InState(p, c, w, k + 1).world, SpanEnd(p, c, w, k), Count(Before(p, c, w, k).count, sv) + 1, sv)
  }

  /** Exactly when a converted value stays where it was put, whatever nests and croaks: if and only if
      the effect of every moment in between, and of the whole, covers the stack that has it on top. */
  lemma {:induction false} ValueKeptIff(p: Platform, c: Call, w: World, k: nat)
    requires Bounded(w.now) && k < |c.args| && !Failed(c, k + 1) && IsCustom(c.args[k].ty.code)
    requires Converted(c.args[k]).Some?
    ensures var v := Converted(c.args[k]).value;
            var stack := Before(p, c, w, k).keepers + [v];
            KeptThroughout(p, c, w, k) <==> AllCover(SpanMoments(c, k, v), stack) && Covers(Span(c, k), stack)
  {
    var v := Converted(c.args[k]).value;
    ConversionKeeps(p, c, w, k);
    SpanSees(p, c, w, k, v);
    KeptIff(InState(p, c, w, k + 1).world, SpanEnd(p, c, w, k), SpanMoments(c, k, v), SpanMoment(c, k, v), v);
  }

  /** Likewise exactly when it stays referenced: if and only if at every moment its occurrences on the
      stack and the references beside it make up for what the effect takes off. */
  lemma {:induction false} ValueHeldIff(p: Platform, c: Call, w: World, k: nat)
    requires Bounded(w.now) && k < |c.args| && !Failed(c, k + 1) && IsCustom(c.args[k].ty.code)
    requires Converted(c.args[k]).Some?
    ensures var v := Converted(c.args[k]).value;
            var stack := Before(p, c, w, k).keepers + [v];
            HeldThroughout(p, c, w, k, v) <==>
            AllHold(SpanMoments(c, k, v), stack, v) && Holds(SpanMoment(c, k, v), stack, v)
  {
    var v := Converted(c.args[k]).value;
    ConversionKeeps(p, c, w, k);
    SpanSees(p, c, w, k, v);
    HeldIff(InState(p, c, w, k + 1).world, SpanEnd(p, c, w, k), SpanMoments(c, k, v), SpanMoment(c, k, v), v);
  }

  lemma {:induction false} OccursPrefix(floor: seq<Sv>, stack: seq<Sv>, sv: Sv)
    requires floor <= stack
    ensures Occurs(floor, sv) <= Occurs(stack, sv)
  {
    if |floor| == |stack| {
      assert floor == stack;
    } else {
      OccursPrefix(floor, stack[..|stack| - 1], sv);
    }
  }

  lemma {:induction false} SpanWithin(c: Call, k: nat, sv: Sv)
    requires k < |c.args|
    ensures Within(SpanMoments(c, k, sv), Span(c, k).drop) && SpanMoment(c, k, sv).extra >= 0
  {
    LossesGrow(c, k + 1, |c.args|, sv);
    if Failed(c, |c.args|) {
      InWithin(c, k + 1, |c.args|, sv);
    } else {
      RoundWithin(c, k + 1, k + 1, sv);
      PostWithin(c, k, sv);
      WithinThen(RoundMoments(c, k + 1, k + 1, sv), OutMoment(c, k + 1, k + 1, sv), PostMoments(c, k, sv),
                 PostEffect(c, k), Span(c, k).drop);
    }
  }

  lemma {:induction false} UndugIsFine(m: Moment, stack: seq<Sv>, sv: Sv)
    requires m.effect.drop == 0 && m.extra >= 0
    ensures Covers(m.effect, stack) && Holds(m, stack, sv)
  {
    assert stack[|stack|..] == [];
    OccursPrefix(stack, Act(m.effect, stack), sv);
  }

  /** In particular it stays there, and referenced, if nothing in between digs below its keeper. */
  lemma {:induction false} ConvertedValueAlive(p: Platform, c: Call, w: World, k: nat)
    requires Bounded(w.now) && k < |c.args| && !Failed(c, k + 1) && IsCustom(c.args[k].ty.code)
    requires Converted(c.args[k]).Some? && Span(c, k).drop == 0
    ensures InState(p, c, w, k + 1).world.log <= SpanEnd(p, c, w, k).log
    ensures KeptThroughout(p, c, w, k) && HeldThroughout(p, c, w, k, Converted(c.args[k]).value)
  {
    var v := Converted(c.args[k]).value;
    var stack, moments := Before(p, c, w, k).keepers + [v], SpanMoments(c, k, v);
    SpanSees(p, c, w, k, v);
    SpanWithin(c, k, v);
    UndugIsFine(SpanMoment(c, k, v), stack, v);
    forall i | 0 <= i < |moments|
      ensures Covers(moments[i].effect, stack) && Holds(moments[i], stack, v)
    {
      UndugIsFine(moments[i], stack, v);
    }
    ValueKeptIff(p, c, w, k);
    ValueHeldIff(p, c, w, k);
  }

  // ---- Two conditions that are enough ----

  /** If no handler returns the empty list anywhere, nothing digs below any keeper. */
  lemma {:induction false} SpanWithoutEmpty(c: Call, k: nat)
    requires EmptyResults(c) == 0 && k < |c.args|
    ensures Span(c, k).drop == 0
    ensures IsCustom(c.args[k].ty.code) ==> Converted(c.args[k]).Some?
  {
    NoEmptyAt(c, k);
    if Failed(c, |c.args|) {
      InWithoutEmpty(c, k + 1, |c.args|);
    } else {
      RoundWithoutEmpty(c, k + 1);
      PostWithoutEmpty(c, k);
    }
  }

  /** Then a converted value is alive from its conversion to its pop, and referenced once more than
      before the call. */
  lemma {:induction false} ConvertedValueAliveWithoutEmpty(p: Platform, c: Call, w: World, k: nat)
    requires Bounded(w.now) && k < |c.args| && !Failed(c, k + 1) && IsCustom(c.args[k].ty.code)
    requires EmptyResults(c) == 0
    ensures Converted(c.args[k]).Some?
    ensures var v, first := Converted(c.args[k]).value, InState(p, c, w, k + 1).world.log;
            var last := SpanEnd(p, c, w, k).log;
            && first <= last
            && forall j :: |first| <= j < |last| ==>
                 v in last[j].at.keepers && Count(last[j].at.count, v) >= Count(w.now.count, v) + 1
  {
    SpanWithoutEmpty(c, k);
    ConvertedValueAlive(p, c, w, k);
    var v, stack := Converted(c.args[k]).value, InState(p, c, w, k + 1).world.now.keepers;
    ConversionKeeps(p, c, w, k);
    NotFailedBefore(c, k, k + 1);
    CountBeforeConversion(p, c, w, k, v);
    var first, last := InState(p, c, w, k + 1).world.log, SpanEnd(p, c, w, k).log;
    forall j | |first| <= j < |last|
      ensures v in last[j].at.keepers && Count(last[j].at.count, v) >= Count(w.now.count, v) + 1
    {
      assert stack <= last[j].at.keepers && stack[|stack| - 1] == v;
    }
  }

  lemma {:induction false} CountBeforeConversion(p: Platform, c: Call, w: World, k: nat, sv: Sv)
    requires Bounded(w.now) && k < |c.args| && !Failed(c, k) && IsCustom(c.args[k].ty.code) && EmptyResults(c) == 0
    ensures Count(Before(p, c, w, k).count, sv) >= Count(w.now.count, sv)
  {
    var b, f0, f := BlockOf(p, c, w), Enter(p, c, w), InState(p, c, w, k);
    EnterArgv(p, c, w);
    InPrefixReferences(p, c, b, k, f0, sv);
    InPrefixKeepers(p, c, b, 0, k, f0);
    ConvertKeepers(p, c, b, k, f.world, sv);
    InWithoutEmpty(c, 0, k);
    NoEmptyAt(c, k);
    if ConvertRuns(c.args[k]) {
      CodeWithoutEmpty(c.args[k].code, |c.args[k].code|);
    }
    RoomAct(w.now.keepers, w.now.keepers, InEffect(c, 0, k));
    RoomAct(w.now.keepers, f.world.now.keepers, ConvertEffect(c, k));
    OccursPrefix(w.now.keepers, Before(p, c, w, k).keepers, sv);
  }

  lemma {:induction false} InWithoutBoth(c: Call, j: nat, k: nat)
    requires NeverCroaks(c) && EmptyResults(c) == 0 && j <= k <= |c.args|
    ensures InEffect(c, j, k).drop == 0 && |InEffect(c, j, k).push| == Customs(c, j, k)
  {
    if j < k {
      InWithoutBoth(c, j, k - 1);
      InAtWithoutBoth(c, k - 1);
      NeverCroaksAt(c, k - 1);
    }
  }

  lemma {:induction false} InAtWithoutBoth(c: Call, k: nat)
    requires NeverCroaks(c) && EmptyResults(c) == 0 && k < |c.args|
    ensures ConvertEffect(c, k) == NOTHING && InEffectAt(c, k) == Effect(0, PushedAt(c.args[k]))
    ensures |PushedAt(c.args[k])| == if IsCustom(c.args[k].ty.code) then 1 else 0
  {
    NeverCroaksAt(c, k);
    NoEmptyAt(c, k);
    var a := c.args[k];
    if ConvertRuns(a) {
      CodeWithoutCroaks(a.code, |a.code|, 0);
    }
  }

  lemma {:induction false} PopsAreCustoms(c: Call, k: nat)
    requires EmptyResults(c) == 0 && k <= |c.args|
    ensures Pops(c, k) == Customs(c, k, |c.args|)
    decreases |c.args| - k
  {
    if k < |c.args| {
      PopsAreCustoms(c, k + 1);
      CustomsFrom(c, k, |c.args|);
      NoEmptyAt(c, k);
    }
  }

  /** If moreover nothing croaks, each pop takes the keeper pushed for that very argument. */
  lemma {:induction false} OwnKeeperWithoutBoth(p: Platform, c: Call, w: World, k: nat)
    requires NeverCroaks(c) && EmptyResults(c) == 0 && k < |c.args| && Bounded(w.now) && IsCustom(c.args[k].ty.code)
    ensures var below := InState(p, c, w, k).world.now.keepers;
            && Converted(c.args[k]).Some?
            && AfterPost(p, c, w, k).now.keepers == below + [Converted(c.args[k]).value]
            && OutState(p, c, w, k).now.keepers == below
  {
    SpanWithoutEmpty(c, k);
    SpanIsNothing(c, k);
    PopTakesOwnKeeper(p, c, w, k);
    InAtWithoutBoth(c, k);
    var f := InState(p, c, w, k);
    ConvertKeepers(p, c, BlockOf(p, c, w), k, f.world, 0);
    ActNothing(f.world.now.keepers);
    ActNothing(f.world.now.keepers + [Converted(c.args[k]).value]);
  }

  lemma {:induction false} SpanIsNothing(c: Call, k: nat)
    requires NeverCroaks(c) && EmptyResults(c) == 0 && k < |c.args|
    ensures Span(c, k) == NOTHING
  {
    InWithoutBoth(c, k + 1, |c.args|);
    CallbacksAreNothing(c);
    OutIsPops(c, k + 1);
    PostIsNothing(c, k);
    PushedAndPopped(InEffect(c, k + 1, |c.args|), CodeEffect(c.callbacks, |c.callbacks|), OutEffect(c, k + 1),
                    PostEffect(c, k));
  }

  lemma {:induction false} CallbacksAreNothing(c: Call)
    requires NeverCroaks(c) && EmptyResults(c) == 0
    ensures CodeEffect(c.callbacks, |c.callbacks|) == NOTHING
  {
    CodeWithoutCroaks(c.callbacks, |c.callbacks|, 0);
  }

  lemma {:induction false} OutIsPops(c: Call, k: nat)
    requires NeverCroaks(c) && EmptyResults(c) == 0 && k <= |c.args|
    ensures OutEffect(c, k) == Effect(Customs(c, k, |c.args|), [])
  {
    OutWithoutCroaks(c, k, 0);
    PopsAreCustoms(c, k);
  }

  lemma {:induction false} PushedAndPopped(e: Effect, callbacks: Effect, out: Effect, post: Effect)
    requires e.drop == 0 && callbacks == NOTHING && out == Effect(|e.push|, []) && post == NOTHING
    ensures Then(Then(Then(e, callbacks), out), post) == NOTHING
  {
  }

  lemma {:induction false} PostIsNothing(c: Call, k: nat)
    requires NeverCroaks(c) && EmptyResults(c) == 0 && k < |c.args|
    ensures PostEffect(c, k) == NOTHING
  {
    NeverCroaksAt(c, k);
    NoEmptyAt(c, k);
    if PostRuns(c.args[k]) {
      CodeWithoutCroaks(c.args[k].after, |c.args[k].after|, 0);
    }
  }
}
