/** The keeper stack and the references at every event of every run, exactly, worked out from the run
    tree alone; and what of the caller's is still there. */
module EventLaws {
  import opened TypeCodes
  import opened CallModel
  import opened HeapLaws
  import opened ArgvLaws
  import opened KeeperEffects
  import opened KeeperLaws

  /** How far a run has got, for one scalar: the effect on the stack since its start, and the
      references since its start that the keepers do not account for. */
  datatype Moment = Moment(effect: Effect, extra: int)

  const HERE := Moment(NOTHING, 0)

  /** Moments of a later part, counted from the start of an earlier one that ends at `m`. */
  function Shift(m: Moment, later: seq<Moment>): (r: seq<Moment>)
    ensures |r| == |later|
    ensures forall j :: 0 <= j < |r| ==> r[j] == Moment(Then(m.effect, later[j].effect), m.extra + later[j].extra)
  {
    seq(|later|, j requires 0 <= j < |later| => Moment(Then(m.effect, later[j].effect), m.extra + later[j].extra))
  }

  // ---- The moments of the events of a run ----

  function CodeMoment(code: seq<Action>, n: nat, sv: Sv): Moment
    requires n <= |code|
  {
    Moment(CodeEffect(code, n), CodeLeak(code, n, sv))
  }

  function CodeMoments(code: seq<Action>, n: nat, sv: Sv): seq<Moment>
    requires n <= |code|
    decreases code, 0, n
  {
    if n == 0 then []
    else
      var action := code[n - 1];
      if action.Api? then CodeMoments(code, n - 1, sv) + [CodeMoment(code, n - 1, sv)]
      else
        assert (code decreases to action) && (action decreases to action.call);
        CodeMoments(code, n - 1, sv) + Shift(CodeMoment(code, n - 1, sv), CallMoments(action.call, sv))
  }

  /** Where a handler is announced, what happens in it, and where it gives control back. */
  function HandlerMoments(code: seq<Action>, sv: Sv): seq<Moment>
    decreases code, 1
  {
    [HERE] + CodeMoments(code, |code|, sv) + [CodeMoment(code, |code|, sv)]
  }

  /** From argument m to argument k on the way in, and on to argument k on the way out. */
  function InMoment(c: Call, m: nat, k: nat, sv: Sv): Moment
    requires m <= k <= |c.args|
  {
    Moment(InEffect(c, m, k), InLeak(c, k, sv) - InLeak(c, m, sv) + Lent(c, k, sv) - Lent(c, m, sv))
  }

  function OutMoment(c: Call, m: nat, k: nat, sv: Sv): Moment
    requires m <= |c.args| && k <= |c.args|
  {
    Moment(RoundEffect(c, m, k),
           InLeak(c, |c.args|, sv) - InLeak(c, m, sv) + CodeLeak(c.callbacks, |c.callbacks|, sv) +
           OutLeak(c, k, sv) + Lent(c, k, sv) - Lent(c, m, sv))
  }

  function ConvertMoments(c: Call, k: nat, sv: Sv): seq<Moment>
    requires k < |c.args|
    decreases c, 1, 0
  {
    if ConvertRuns(c.args[k]) then HandlerMoments(c.args[k].code, sv) else []
  }

  function InMoments(c: Call, m: nat, k: nat, sv: Sv): seq<Moment>
    requires m <= k <= |c.args|
    decreases c, 1, 1 + k
  {
    if m == k then []
    else if Failed(c, k - 1) then InMoments(c, m, k - 1, sv)
    else InMoments(c, m, k - 1, sv) + Shift(InMoment(c, m, k - 1, sv), ConvertMoments(c, k - 1, sv))
  }

  function PostMoments(c: Call, k: nat, sv: Sv): seq<Moment>
    requires k < |c.args|
    decreases c, 1, 0
  {
    if PostRuns(c.args[k]) then HandlerMoments(c.args[k].after, sv) else []
  }

  /** Of a call that does not croak, from argument m through the foreign call back to argument k. */
  function RoundMoments(c: Call, m: nat, k: nat, sv: Sv): seq<Moment>
    requires m <= |c.args| && k <= |c.args|
    decreases c, 1, 2 * |c.args| + 2 - k
  {
    if k == |c.args| then
      InMoments(c, m, k, sv) + Shift(InMoment(c, m, k, sv), HandlerMoments(c.callbacks, sv))
    else
      RoundMoments(c, m, k + 1, sv) + Shift(OutMoment(c, m, k + 1, sv), PostMoments(c, k, sv))
  }

  function FinishMoments(c: Call, sv: Sv): seq<Moment>
    decreases c, 1, 0
  {
    if FinishRuns(c) then HandlerMoments(c.finish, sv) else []
  }

  function CallMoments(c: Call, sv: Sv): seq<Moment>
    decreases c, 2
  {
    if Failed(c, |c.args|) then InMoments(c, 0, |c.args|, sv)
    else RoundMoments(c, 0, 0, sv) + Shift(OutMoment(c, 0, 0, sv), FinishMoments(c, sv))
  }

  // ---- They are what the events find ----

  /** State t is at moment m counted from state s. */
  predicate Reached(s: Shared, t: Shared, m: Moment, sv: Sv) {
    t.keepers == Act(m.effect, s.keepers) && Unaccounted(t, sv) == Unaccounted(s, sv) + m.extra
  }

  /** The same, with everything that was allocated still allocated. */
  predicate At(s: Shared, t: Shared, m: Moment, sv: Sv) {
    Reached(s, t, m, sv) && s.live <= t.live
  }

  /** From w to w' there were just these moments. */
  ghost predicate Sees(w: World, w': World, moments: seq<Moment>, sv: Sv) {
    && w.log <= w'.log && |w'.log| == |w.log| + |moments|
    && forall j :: 0 <= j < |moments| ==> At(w.now, w'.log[|w.log| + j].at, moments[j], sv)
  }

  lemma {:induction false} AtThen(s: Shared, t: Shared, u: Shared, m: Moment, n: Moment, sv: Sv)
    requires At(s, t, m, sv) && At(t, u, n, sv)
    ensures At(s, u, Moment(Then(m.effect, n.effect), m.extra + n.extra), sv)
  {
    ActThen(m.effect, n.effect, s.keepers);
  }

  lemma {:induction false} SeesThen(u: World, v: World, w: World, first: seq<Moment>, m: Moment, later: seq<Moment>,
                                    both: seq<Moment>, sv: Sv)
    requires Sees(u, v, first, sv) && At(u.now, v.now, m, sv) && Sees(v, w, later, sv)
    requires both == first + Shift(m, later)
    ensures Sees(u, w, both, sv)
  {
    forall j | 0 <= j < |both|
      ensures At(u.now, w.log[|u.log| + j].at, both[j], sv)
    {
      if j < |first| {
        assert w.log[|u.log| + j] == v.log[|u.log| + j];
      } else {
        var i := j - |first|;
        assert |u.log| + j == |v.log| + i;
        AtThen(u.now, v.now, w.log[|v.log| + i].at, m, later[i], sv);
      }
    }
  }

  lemma {:induction false} SeesNothing(w: World, w': World, sv: Sv)
    requires w'.log == w.log
    ensures Sees(w, w', [], sv)
  {
  }

  /** One event, at moment m. */
  lemma {:induction false} SeesOne(u: World, v: World, owner: Option<Id>, what: What, first: seq<Moment>,
                                   m: Moment, sv: Sv)
    requires Sees(u, v, first, sv) && At(u.now, v.now, m, sv)
    ensures Sees(u, Log(v, owner, what), first + [m], sv)
  {
    var w := Log(v, owner, what);
    forall j | 0 <= j < |first| + 1
      ensures At(u.now, w.log[|u.log| + j].at, (first + [m])[j], sv)
    {
      if j < |first| {
        assert w.log[|u.log| + j] == v.log[|u.log| + j];
      }
    }
  }

  lemma {:induction false} CodeAt(p: Platform, code: seq<Action>, owner: Option<Id>, n: nat, w: World, sv: Sv)
    requires n <= |code| && Bounded(w.now)
    ensures At(w.now, RunCode(p, code, owner, n, w).now, CodeMoment(code, n, sv), sv)
    ensures Bounded(RunCode(p, code, owner, n, w).now)
  {
    CodeFreesExactlyItsBlocks(p, code, owner, n, w);
    RunCodeKeepers(p, code, owner, n, w, sv);
  }

  lemma {:induction false} CodeSees(p: Platform, code: seq<Action>, owner: Option<Id>, n: nat, w: World, sv: Sv)
    requires n <= |code| && Bounded(w.now)
    ensures Sees(w, RunCode(p, code, owner, n, w), CodeMoments(code, n, sv), sv)
    decreases code, 0, n
  {
    if n == 0 {
      SeesNothing(w, w, sv);
    } else {
      CodeSees(p, code, owner, n - 1, w, sv);
      CodeAt(p, code, owner, n - 1, w, sv);
      var u, m, action := RunCode(p, code, owner, n - 1, w), CodeMoment(code, n - 1, sv), code[n - 1];
      if action.Api? {
        SeesOne(w, u, owner, ApiUse, CodeMoments(code, n - 1, sv), m, sv);
      } else {
        assert (code decreases to action) && (action decreases to action.call);
        CallSees(p, action.call, u, sv);
        SeesThen(w, u, RunCode(p, code, owner, n, w), CodeMoments(code, n - 1, sv), m, CallMoments(action.call, sv),
                 CodeMoments(code, n, sv), sv);
      }
    }
  }

  lemma {:induction false} SeesFrom(u: World, v: World, w: World, m: Moment, later: seq<Moment>, sv: Sv)
    requires Sees(u, v, [HERE], sv) && Sees(v, w, later, sv) && v.now == u.now
    ensures Sees(u, w, [HERE] + later, sv)
  {
    forall j | 0 <= j < |later| + 1
      ensures At(u.now, w.log[|u.log| + j].at, ([HERE] + later)[j], sv)
    {
      if j == 0 {
        assert w.log[|u.log|] == v.log[|u.log|];
      } else {
        assert |u.log| + j == |v.log| + (j - 1);
      }
    }
  }

  lemma {:induction false} HandlerSees(p: Platform, code: seq<Action>, owner: Option<Id>, what: What, w: World, sv: Sv)
    requires Bounded(w.now)
    ensures Sees(w, RunHandler(p, code, owner, what, w), HandlerMoments(code, sv), sv)
    decreases code, 1
  {
    var v := Log(w, owner, what);
    var u := RunCode(p, code, owner, |code|, v);
    SeesNothing(w, w, sv);
    ActNothing(w.now.keepers);
    SeesOne(w, w, owner, what, [], HERE, sv);
    assert [] + [HERE] == [HERE];
    CodeSees(p, code, owner, |code|, v, sv);
    SeesFrom(w, v, u, HERE, CodeMoments(code, |code|, sv), sv);
    CodeAt(p, code, owner, |code|, v, sv);
    SeesOne(w, u, owner, Back, [HERE] + CodeMoments(code, |code|, sv), CodeMoment(code, |code|, sv), sv);
  }

  // ---- The stages of a call ----

  /** The state of a call after its first k conversions, and back at argument k on the way out. */
  function InState(p: Platform, c: Call, w: World, k: nat): Frame
    requires k <= |c.args|
  {
    InPrefix(p, c, BlockOf(p, c, w), k, Enter(p, c, w))
  }

  function OutState(p: Platform, c: Call, w: World, k: nat): World
    requires k <= |c.args|
  {
    OutSuffix(p, c, BlockOf(p, c, w), k, RunForeign(p, c, BlockOf(p, c, w), InState(p, c, w, |c.args|)))
  }

  lemma {:induction false} EnterAt(p: Platform, c: Call, w: World, sv: Sv)
    requires Bounded(w.now)
    ensures At(w.now, InState(p, c, w, 0).world.now, HERE, sv) && InState(p, c, w, 0).world.log == w.log
  {
    EnterArgv(p, c, w);
    ActNothing(w.now.keepers);
  }

  /** A conversion that does not croak frees nothing. */
  lemma {:induction false} InStepLive(p: Platform, c: Call, b: Id, k: nat, f: Frame)
    requires k < |c.args| && !f.croaked && !ArgFails(c.args[k]) && Bounded(f.world.now)
    ensures f.world.now.live <= InStep(p, c, b, k, f).world.now.live
  {
    var a := c.args[k];
    if IsCustom(a.ty.code) {
      HandlerFrees(p, a.code, Some(b), Convert(SlotOf(c, k), Extra(c.style) + k, ValueOf(c, k)), f.world);
      var g := f.(world := RunConvert(p, c, b, k, f.world));
      if Converted(a).Some? {
        StoreConvertedArgv(p, a, Converted(a).value, SlotOf(c, k), g);
      }
    } else {
      StoreArgv(p, a.ty.code, a, ValueOf(c, k), SlotOf(c, k), f);
    }
  }

  lemma {:induction false} InLive(p: Platform, c: Call, w: World, m: nat, k: nat)
    requires m <= k <= |c.args| && !Failed(c, k) && Bounded(w.now)
    ensures InState(p, c, w, m).world.now.live <= InState(p, c, w, k).world.now.live
    ensures !InState(p, c, w, k).croaked && Bounded(InState(p, c, w, k).world.now)
  {
    EnterArgv(p, c, w);
    InPrefixArgv(p, c, BlockOf(p, c, w), k, Enter(p, c, w));
    if m < k {
      NotFailedBefore(c, k - 1, k);
      InLive(p, c, w, m, k - 1);
      InStepLive(p, c, BlockOf(p, c, w), k - 1, InState(p, c, w, k - 1));
    }
  }

  lemma {:induction false} InReached(p: Platform, c: Call, w: World, m: nat, k: nat, sv: Sv)
    requires m <= k <= |c.args| && Bounded(w.now)
    ensures Reached(InState(p, c, w, m).world.now, InState(p, c, w, k).world.now, InMoment(c, m, k, sv), sv)
  {
    var b, f0 := BlockOf(p, c, w), Enter(p, c, w);
    EnterArgv(p, c, w);
    InPrefixKeepers(p, c, b, m, k, f0);
    InPrefixReferences(p, c, b, m, f0, sv);
    InPrefixReferences(p, c, b, k, f0, sv);
  }

  lemma {:induction false} OutReached(p: Platform, c: Call, w: World, m: nat, k: nat, sv: Sv)
    requires m <= |c.args| && k <= |c.args| && !Failed(c, |c.args|) && Bounded(w.now)
    ensures Reached(InState(p, c, w, m).world.now, OutState(p, c, w, k).now, OutMoment(c, m, k, sv), sv)
  {
    var b, f0, n := BlockOf(p, c, w), Enter(p, c, w), |c.args|;
    EnterArgv(p, c, w);
    RoundKeepers(p, c, b, m, k, f0);
    InPrefixReferences(p, c, b, m, f0, sv);
    InPrefixReferences(p, c, b, n, f0, sv);
    ForeignKeepers(p, c, b, InState(p, c, w, n), sv);
    OutSuffixKeepers(p, c, b, k, RunForeign(p, c, b, InState(p, c, w, n)), sv);
  }

  lemma {:induction false} OutLive(p: Platform, c: Call, w: World, m: nat, k: nat)
    requires m <= |c.args| && k <= |c.args| && !Failed(c, |c.args|) && Bounded(w.now)
    ensures InState(p, c, w, m).world.now.live <= OutState(p, c, w, k).now.live && Bounded(OutState(p, c, w, k).now)
  {
    var b, f := BlockOf(p, c, w), InState(p, c, w, |c.args|);
    InLive(p, c, w, m, |c.args|);
    CalledArgv(p, c, w);
    ForeignArgv(p, c, b, f);
    OutSuffixArgv(p, c, b, k, RunForeign(p, c, b, f));
  }

  lemma {:induction false} ConvertSees(p: Platform, c: Call, b: Id, k: nat, f: Frame, sv: Sv)
    requires k < |c.args| && Bounded(f.world.now)
    ensures Sees(f.world, InStep(p, c, b, k, f).world, ConvertMoments(c, k, sv), sv)
    decreases c, 1, 0
  {
    InStepLog(p, c, b, k, f);
    if ConvertRuns(c.args[k]) {
      HandlerSees(p, c.args[k].code, Some(b), Convert(SlotOf(c, k), Extra(c.style) + k, ValueOf(c, k)), f.world, sv);
      SeesApartFromArgv(f.world, f.world, RunConvert(p, c, b, k, f.world), InStep(p, c, b, k, f).world,
                        ConvertMoments(c, k, sv), sv);
    } else {
      SeesNothing(f.world, InStep(p, c, b, k, f).world, sv);
    }
  }

  /** The conversions from argument m on, up to argument k or to the croak. */
  lemma {:induction false} InSees(p: Platform, c: Call, w: World, m: nat, k: nat, sv: Sv)
    requires m <= k <= |c.args| && Bounded(w.now)
    ensures Sees(InState(p, c, w, m).world, InState(p, c, w, k).world, InMoments(c, m, k, sv), sv)
    decreases c, 1, 1 + k
  {
    var start := InState(p, c, w, m).world;
    if m == k {
      SeesNothing(start, start, sv);
    } else {
      InSees(p, c, w, m, k - 1, sv);
      InNextSees(p, c, w, k - 1, sv);
      if !Failed(c, k - 1) {
        InLive(p, c, w, m, k - 1);
        InReached(p, c, w, m, k - 1, sv);
        SeesThen(start, InState(p, c, w, k - 1).world, InState(p, c, w, k).world, InMoments(c, m, k - 1, sv),
                 InMoment(c, m, k - 1, sv), ConvertMoments(c, k - 1, sv), InMoments(c, m, k, sv), sv);
      }
    }
  }

  lemma {:induction false} InNextSees(p: Platform, c: Call, w: World, k: nat, sv: Sv)
    requires k < |c.args| && Bounded(w.now)
    ensures if Failed(c, k) then InState(p, c, w, k + 1) == InState(p, c, w, k)
            else Sees(InState(p, c, w, k).world, InState(p, c, w, k + 1).world, ConvertMoments(c, k, sv), sv)
    decreases c, 1, 1
  {
    var f := InState(p, c, w, k);
    EnterArgv(p, c, w);
    InPrefixReferences(p, c, BlockOf(p, c, w), k, Enter(p, c, w), sv);
    if Failed(c, k) {
      assert InState(p, c, w, k + 1) == f;
    } else {
      InLive(p, c, w, k, k);
      ConvertSees(p, c, BlockOf(p, c, w), k, f, sv);
      assert InState(p, c, w, k + 1) == InStep(p, c, BlockOf(p, c, w), k, f);
    }
  }

  lemma {:induction false} ForeignSees(p: Platform, c: Call, b: Id, f: Frame, sv: Sv)
    requires Bounded(f.world.now)
    ensures Sees(f.world, RunForeign(p, c, b, f), HandlerMoments(c.callbacks, sv), sv)
    decreases c, 1, 0
  {
    var before := SetArgv(f.world, None);
    HandlerSees(p, c.callbacks, Some(b), Foreign(f.targets), before, sv);
    SeesApartFromArgv(f.world, before, RunHandler(p, c.callbacks, Some(b), Foreign(f.targets), before),
                      RunForeign(p, c, b, f), HandlerMoments(c.callbacks, sv), sv);
  }

  lemma {:induction false} SeesApartFromArgv(u: World, u': World, v: World, v': World, moments: seq<Moment>, sv: Sv)
    requires Sees(u', v, moments, sv) && v'.log == v.log && u'.log == u.log
    requires u.now.keepers == u'.now.keepers && u.now.count == u'.now.count && u.now.live == u'.now.live
    ensures Sees(u, v', moments, sv)
  {
    forall j | 0 <= j < |moments|
      ensures At(u.now, v'.log[|u.log| + j].at, moments[j], sv)
    {
      assert At(u'.now, v.log[|u.log| + j].at, moments[j], sv);
    }
  }

  lemma {:induction false} PostSees(p: Platform, c: Call, b: Id, k: nat, w: World, sv: Sv)
    requires k < |c.args| && Bounded(w.now)
    ensures Sees(w, RunPost(p, c, b, k, w), PostMoments(c, k, sv), sv)
    ensures Sees(w, OutStep(p, c, b, k, w), PostMoments(c, k, sv), sv)
    decreases c, 1, 0
  {
    var u := RunPost(p, c, b, k, w);
    if PostRuns(c.args[k]) {
      HandlerSees(p, c.args[k].after, Some(b), PostOf(c, k), w, sv);
    } else {
      SeesNothing(w, u, sv);
    }
    assert OutStep(p, c, b, k, w).log == u.log;
    SeesApartFromArgv(w, w, u, OutStep(p, c, b, k, w), PostMoments(c, k, sv), sv);
  }

  /** From argument m through the foreign call down to argument k. */
  lemma {:induction false} RoundSees(p: Platform, c: Call, w: World, m: nat, k: nat, sv: Sv)
    requires m <= |c.args| && k <= |c.args| && !Failed(c, |c.args|) && Bounded(w.now)
    ensures Sees(InState(p, c, w, m).world, OutState(p, c, w, k), RoundMoments(c, m, k, sv), sv)
    decreases c, 1, 2 * |c.args| + 2 - k
  {
    var b, n, start := BlockOf(p, c, w), |c.args|, InState(p, c, w, m).world;
    if k == n {
      var f := InState(p, c, w, n);
      InSees(p, c, w, m, n, sv);
      InLive(p, c, w, m, n);
      InReached(p, c, w, m, n, sv);
      ForeignSees(p, c, b, f, sv);
      SeesThen(start, f.world, RunForeign(p, c, b, f), InMoments(c, m, n, sv), InMoment(c, m, n, sv),
               HandlerMoments(c.callbacks, sv), RoundMoments(c, m, n, sv), sv);
    } else {
      RoundSees(p, c, w, m, k + 1, sv);
      OutLive(p, c, w, m, k + 1);
      OutReached(p, c, w, m, k + 1, sv);
      var v := OutState(p, c, w, k + 1);
      PostSees(p, c, b, k, v, sv);
      SeesThen(start, v, OutStep(p, c, b, k, v), RoundMoments(c, m, k + 1, sv), OutMoment(c, m, k + 1, sv),
               PostMoments(c, k, sv), RoundMoments(c, m, k, sv), sv);
    }
  }

  lemma {:induction false} FinishSees(p: Platform, c: Call, b: Id, f: Frame, sv: Sv)
    requires Bounded(f.world.now)
    ensures Sees(f.world, Leave(p, c, b, f).world, FinishMoments(c, sv), sv)
    decreases c, 1, 0
  {
    if FinishRuns(c) {
      assert !FreesEarly(c.ret.code);
      var own := SetArgv(SetArgv(f.world, None), Some(b));
      HandlerSees(p, c.finish, Some(b), Native, own, sv);
      SeesApartFromArgv(f.world, own, RunHandler(p, c.finish, Some(b), Native, own), Leave(p, c, b, f).world,
                        FinishMoments(c, sv), sv);
    } else {
      SeesNothing(f.world, Leave(p, c, b, f).world, sv);
    }
  }

  /** The stack and the references at every event of any call, croaks and nested calls included: the
      j-th event finds the effect of the j-th moment acted on the stack the call found, and the
      references the moment says; and everything allocated before the call is still allocated. */
  lemma {:induction false} CallSees(p: Platform, c: Call, w: World, sv: Sv)
    requires Bounded(w.now)
    ensures Sees(w, RunCall(p, c, w).world, CallMoments(c, sv), sv)
    decreases c, 2
  {
    EnterAt(p, c, w, sv);
    var start := InState(p, c, w, 0).world;
    EnterArgv(p, c, w);
    InPrefixReferences(p, c, BlockOf(p, c, w), |c.args|, Enter(p, c, w), sv);
    if Failed(c, |c.args|) {
      InSees(p, c, w, 0, |c.args|, sv);
    } else {
      ReturningCallSees(p, c, w, sv);
    }
    SeesFromEntry(w, start, RunCall(p, c, w).world, CallMoments(c, sv), sv);
  }

  lemma {:induction false} ReturningCallSees(p: Platform, c: Call, w: World, sv: Sv)
    requires Bounded(w.now) && !Failed(c, |c.args|)
    ensures var f := InState(p, c, w, |c.args|).(world := OutState(p, c, w, 0));
            Sees(InState(p, c, w, 0).world, Leave(p, c, BlockOf(p, c, w), f).world, CallMoments(c, sv), sv)
    decreases c, 2, 0
  {
    var start, v := InState(p, c, w, 0).world, OutState(p, c, w, 0);
    var f := InState(p, c, w, |c.args|).(world := v);
    RoundSees(p, c, w, 0, 0, sv);
    OutLive(p, c, w, 0, 0);
    OutReached(p, c, w, 0, 0, sv);
    FinishSees(p, c, BlockOf(p, c, w), f, sv);
    SeesThen(start, v, Leave(p, c, BlockOf(p, c, w), f).world, RoundMoments(c, 0, 0, sv), OutMoment(c, 0, 0, sv),
             FinishMoments(c, sv), CallMoments(c, sv), sv);
  }

  lemma {:induction false} SeesFromEntry(w: World, start: World, w': World, moments: seq<Moment>, sv: Sv)
    requires At(w.now, start.now, HERE, sv) && start.log == w.log && Sees(start, w', moments, sv)
    ensures Sees(w, w', moments, sv)
  {
    ActNothing(w.now.keepers);
    forall j | 0 <= j < |moments|
      ensures At(w.now, w'.log[|w.log| + j].at, moments[j], sv)
    {
      assert At(start.now, w'.log[|start.log| + j].at, moments[j], sv);
    }
  }

  // ---- How deep a run digs ----

  /** None of the moments digs deeper than d, and none has lost a reference. */
  ghost predicate Within(moments: seq<Moment>, d: nat) {
    forall j :: 0 <= j < |moments| ==> moments[j].effect.drop <= d && moments[j].extra >= 0
  }

  lemma {:induction false} WithinThen(first: seq<Moment>, m: Moment, later: seq<Moment>, e: Effect, d: nat)
    requires Within(first, m.effect.drop) && m.extra >= 0 && Within(later, e.drop) && Then(m.effect, e).drop <= d
    ensures Within(first + Shift(m, later), d)
  {
  }

  lemma {:induction false} CodeWithin(code: seq<Action>, n: nat, sv: Sv)
    requires n <= |code|
    ensures Within(CodeMoments(code, n, sv), CodeEffect(code, n).drop)
    decreases code, 0, n
  {
    if n > 0 {
      CodeWithin(code, n - 1, sv);
      var action := code[n - 1];
      if action.Invoke? {
        assert (code decreases to action) && (action decreases to action.call);
        CallWithin(action.call, sv);
        WithinThen(CodeMoments(code, n - 1, sv), CodeMoment(code, n - 1, sv), CallMoments(action.call, sv),
                   CallEffect(action.call), CodeEffect(code, n).drop);
      }
    }
  }

  lemma {:induction false} HandlerWithin(code: seq<Action>, sv: Sv)
    ensures Within(HandlerMoments(code, sv), CodeEffect(code, |code|).drop)
    decreases code, 1
  {
    CodeWithin(code, |code|, sv);
  }

  lemma {:induction false} LossesGrow(c: Call, m: nat, k: nat, sv: Sv)
    requires m <= k <= |c.args|
    ensures InLeak(c, m, sv) <= InLeak(c, k, sv) && Lent(c, m, sv) <= Lent(c, k, sv)
  {
    if m < k {
      LossesGrow(c, m, k - 1, sv);
    }
  }

  lemma {:induction false} ConvertWithin(c: Call, k: nat, sv: Sv)
    requires k < |c.args|
    ensures Within(ConvertMoments(c, k, sv), InEffectAt(c, k).drop)
    decreases c, 1, 0
  {
    if ConvertRuns(c.args[k]) {
      HandlerWithin(c.args[k].code, sv);
    }
  }

  lemma {:induction false} InWithin(c: Call, m: nat, k: nat, sv: Sv)
    requires m <= k <= |c.args|
    ensures Within(InMoments(c, m, k, sv), InEffect(c, m, k).drop)
    decreases c, 1, 1 + k
  {
    if m < k {
      InWithin(c, m, k - 1, sv);
      if !Failed(c, k - 1) {
        LossesGrow(c, m, k - 1, sv);
        ConvertWithin(c, k - 1, sv);
        WithinThen(InMoments(c, m, k - 1, sv), InMoment(c, m, k - 1, sv), ConvertMoments(c, k - 1, sv),
                   InEffectAt(c, k - 1), InEffect(c, m, k).drop);
      }
    }
  }

  lemma {:induction false} PostWithin(c: Call, k: nat, sv: Sv)
    requires k < |c.args|
    ensures Within(PostMoments(c, k, sv), PostEffect(c, k).drop)
    ensures PostEffect(c, k).drop <= OutEffectAt(c, k).drop
    decreases c, 1, 0
  {
    ClosureArms(c.args[k].ty.code);
    if PostRuns(c.args[k]) {
      HandlerWithin(c.args[k].after, sv);
    }
  }

  lemma {:induction false} RoundEffectStep(c: Call, m: nat, k: nat)
    requires m <= |c.args| && k < |c.args|
    ensures RoundEffect(c, m, k) == Then(RoundEffect(c, m, k + 1), OutEffectAt(c, k))
  {
    var called := Then(InEffect(c, m, |c.args|), CodeEffect(c.callbacks, |c.callbacks|));
    ThenAssociates(called, OutEffect(c, k + 1), OutEffectAt(c, k));
  }

  lemma {:induction false} CalledWithin(c: Call, m: nat, sv: Sv)
    requires m <= |c.args|
    ensures Within(RoundMoments(c, m, |c.args|, sv), RoundEffect(c, m, |c.args|).drop)
    decreases c, 1, |c.args| + 2
  {
    var n, callbacks := |c.args|, CodeEffect(c.callbacks, |c.callbacks|);
    LossesGrow(c, m, n, sv);
    InWithin(c, m, n, sv);
    HandlerWithin(c.callbacks, sv);
    assert RoundEffect(c, m, n) == Then(Then(InEffect(c, m, n), callbacks), NOTHING);
    WithinThen(InMoments(c, m, n, sv), InMoment(c, m, n, sv), HandlerMoments(c.callbacks, sv), callbacks,
               RoundEffect(c, m, n).drop);
  }

  lemma {:induction false} RoundWithin(c: Call, m: nat, k: nat, sv: Sv)
    requires m <= k <= |c.args|
    ensures Within(RoundMoments(c, m, k, sv), RoundEffect(c, m, k).drop)
    decreases c, 1, 2 * |c.args| + 3 - k
  {
    if k == |c.args| {
      CalledWithin(c, m, sv);
    } else {
      RoundWithin(c, m, k + 1, sv);
      RoundEffectStep(c, m, k);
      PostWithin(c, k, sv);
      LossesGrow(c, m, |c.args|, sv);
      LossesGrow(c, m, k + 1, sv);
      WithinThen(RoundMoments(c, m, k + 1, sv), OutMoment(c, m, k + 1, sv), PostMoments(c, k, sv), PostEffect(c, k),
                 RoundEffect(c, m, k).drop);
    }
  }

  lemma {:induction false} CallWithin(c: Call, sv: Sv)
    ensures Within(CallMoments(c, sv), CallEffect(c).drop)
    decreases c, 2
  {
    if Failed(c, |c.args|) {
      InWithin(c, 0, |c.args|, sv);
    } else {
      RoundWithin(c, 0, 0, sv);
      if FinishRuns(c) {
        HandlerWithin(c.finish, sv);
      }
      WithinThen(RoundMoments(c, 0, 0, sv), OutMoment(c, 0, 0, sv), FinishMoments(c, sv), FinishEffect(c),
                 CallEffect(c).drop);
    }
  }

  /** So at every event of any call no reference that the keepers do not account for is gone, and the
      stack stands on any floor under the stack found that the call's effect leaves room for. */
  lemma {:induction false} RunCallEvents(p: Platform, c: Call, w: World, floor: seq<Sv>, sv: Sv, j: nat)
    requires Bounded(w.now) && Room(floor, w.now.keepers, CallEffect(c).drop)
    requires |w.log| <= j < |RunCall(p, c, w).world.log|
    ensures var at := RunCall(p, c, w).world.log[j].at;
            w.now.live <= at.live && Unaccounted(w.now, sv) <= Unaccounted(at, sv) && floor <= at.keepers
  {
    CallSees(p, c, w, sv);
    CallWithin(c, sv);
    var m := CallMoments(c, sv)[j - |w.log|];
    RoomAct(floor, w.now.keepers, m.effect);
    assert At(w.now, RunCall(p, c, w).world.log[|w.log| + (j - |w.log|)].at, m, sv);
  }
}
