/** Two conditions on calls, and what the keeper laws come to under them: no call croaks, and no
    perl_to_native handler returns the empty list. */
module PlainRuns {
  import opened TypeCodes
  import opened CallModel
  import opened ArgvLaws
  import opened KeeperEffects
  import opened KeeperLaws

  /** No call in the tree ends in ffi_pl_croak. */
  ghost predicate NeverCroaks(c: Call)
    decreases c, 1
  {
    && !Failed(c, |c.args|)
    && CodeNeverCroaks(c.callbacks)
    && (FinishRuns(c) ==> CodeNeverCroaks(c.finish))
    && (forall k :: 0 <= k < |c.args| ==>
          && (ConvertRuns(c.args[k]) ==> CodeNeverCroaks(c.args[k].code))
          && (PostRuns(c.args[k]) ==> CodeNeverCroaks(c.args[k].after)))
  }

  ghost predicate CodeNeverCroaks(code: seq<Action>)
    decreases code, 0
  {
    forall n :: 0 <= n < |code| && code[n].Invoke? ==>
      assert (code decreases to code[n]) && (code[n] decreases to code[n].call);
      NeverCroaks(code[n].call)
  }

  /** What the definition gives for the handlers of one argument. */
  lemma {:induction false} NeverCroaksAt(c: Call, k: nat)
    requires NeverCroaks(c) && k < |c.args|
    ensures !ArgFails(c.args[k]) && !Failed(c, k) && !Failed(c, k + 1)
    ensures ConvertRuns(c.args[k]) ==> CodeNeverCroaks(c.args[k].code)
    ensures PostRuns(c.args[k]) ==> CodeNeverCroaks(c.args[k].after)
  {
    FailedIff(c, k);
    FailedIff(c, k + 1);
    FailedIff(c, |c.args|);
  }

  /** Times a perl_to_native handler returns the empty list, anywhere in the tree. */
  function EmptyResults(c: Call): nat
    decreases c, 2
  {
    EmptyIn(c, |c.args|) + EmptyCode(c.callbacks, |c.callbacks|) + EmptyOut(c, 0) + EmptyFinish(c)
  }

  function EmptyFinish(c: Call): nat
    decreases c, 1
  {
    if FinishRuns(c) then EmptyCode(c.finish, |c.finish|) else 0
  }

  /** In the handlers of the first k arguments; for argument k alone. */
  function EmptyIn(c: Call, k: nat): nat
    requires k <= |c.args|
    decreases c, 1, 2 * k
  {
    if k == 0 then 0 else EmptyIn(c, k - 1) + EmptyInAt(c, k - 1)
  }

  function EmptyInAt(c: Call, k: nat): nat
    requires k < |c.args|
    decreases c, 1, 2 * k + 1
  {
    if ConvertRuns(c.args[k]) then EmptyCode(c.args[k].code, |c.args[k].code|) else 0
  }

  /** In the post handlers of arguments k and up, with the empty results of those arguments themselves. */
  function EmptyOut(c: Call, k: nat): nat
    requires k <= |c.args|
    decreases c, 1, 2 * (|c.args| - k)
  {
    if k == |c.args| then 0 else EmptyOut(c, k + 1) + EmptyOutAt(c, k)
  }

  function EmptyOutAt(c: Call, k: nat): nat
    requires k < |c.args|
    decreases c, 1, 2 * (|c.args| - k) - 1
  {
    var a := c.args[k];
    (if PostRuns(a) then EmptyCode(a.after, |a.after|) else 0) +
    (if IsCustom(a.ty.code) && Converted(a).None? then 1 else 0)
  }

  function EmptyCode(code: seq<Action>, n: nat): nat
    requires n <= |code|
    decreases code, 0, n
  {
    if n == 0 then 0
    else
      var action := code[n - 1];
      EmptyCode(code, n - 1) +
      if action.Api? then 0
      else
        assert (code decreases to action) && (action decreases to action.call);
        EmptyResults(action.call)
  }

  // ---- Runs without croaks ----

  /** The scalars pushed for the first k arguments, in order. */
  function Pushed(c: Call, k: nat): seq<Sv>
    requires k <= |c.args|
  {
    if k == 0 then [] else Pushed(c, k - 1) + PushedAt(c.args[k - 1])
  }

  /** All pops from argument k on: those of nested calls beyond their own pushes, and one per custom argument. */
  function Pops(c: Call, k: nat): nat
    requires k <= |c.args|
    decreases |c.args| - k
  {
    if k == |c.args| then 0 else Pops(c, k + 1) + PopsAt(c, k)
  }

  function PopsAt(c: Call, k: nat): nat
    requires k < |c.args|
  {
    var a := c.args[k];
    (if PostRuns(a) then EmptyCode(a.after, |a.after|) else 0) + (if IsCustom(a.ty.code) then 1 else 0)
  }

  /** Each pop answers a push or stands for an empty result. */
  lemma {:induction false} PopsAnswerPushes(c: Call, k: nat)
    requires k <= |c.args|
    ensures Pops(c, k) + |Pushed(c, k)| == EmptyOut(c, k) + |Pushed(c, |c.args|)|
    decreases |c.args| - k
  {
    if k < |c.args| {
      PopsAnswerPushes(c, k + 1);
    }
  }

  lemma {:induction false} CodeWithoutCroaks(code: seq<Action>, n: nat, sv: Sv)
    requires CodeNeverCroaks(code) && n <= |code|
    ensures CodeEffect(code, n) == Effect(EmptyCode(code, n), []) && CodeLeak(code, n, sv) == 0
    decreases code, 0, n
  {
    if n > 0 {
      CodeWithoutCroaks(code, n - 1, sv);
      var action := code[n - 1];
      if action.Invoke? {
        assert (code decreases to action) && (action decreases to action.call);
        CallWithoutCroaks(action.call, sv);
      }
    }
  }

  lemma {:induction false} InWithoutCroaks(c: Call, k: nat, sv: Sv)
    requires NeverCroaks(c) && k <= |c.args|
    ensures var e := InEffect(c, 0, k);
            |e.push| <= |Pushed(c, k)| && e.drop + |Pushed(c, k)| == EmptyIn(c, k) + |e.push|
    ensures InLeak(c, k, sv) == 0
    decreases c, 1, 1 + k
  {
    if k > 0 {
      InWithoutCroaks(c, k - 1, sv);
      InAtWithoutCroaks(c, k - 1, sv);
      GrowsBy(InEffect(c, 0, k - 1), InEffectAt(c, k - 1), |Pushed(c, k - 1)|, EmptyIn(c, k - 1));
    }
  }

  lemma {:induction false} InAtWithoutCroaks(c: Call, k: nat, sv: Sv)
    requires NeverCroaks(c) && k < |c.args|
    ensures InEffectAt(c, k) == Effect(EmptyInAt(c, k), PushedAt(c.args[k])) && !Failed(c, k)
    ensures ConvertLeak(c, k, sv) == 0 && FailingLeak(c.args[k], sv) == 0
    decreases c, 1, 0
  {
    NeverCroaksAt(c, k);
    if ConvertRuns(c.args[k]) {
      CodeWithoutCroaks(c.args[k].code, |c.args[k].code|, sv);
    }
  }

  lemma {:induction false} GrowsBy(e: Effect, f: Effect, pushed: nat, empty: nat)
    requires |e.push| <= pushed && e.drop + pushed == empty + |e.push|
    ensures var g := Then(e, f);
            |g.push| <= pushed + |f.push| && g.drop + pushed + |f.push| == empty + f.drop + |g.push|
  {
  }

  lemma {:induction false} OutWithoutCroaks(c: Call, k: nat, sv: Sv)
    requires NeverCroaks(c) && k <= |c.args|
    ensures OutEffect(c, k) == Effect(Pops(c, k), []) && OutLeak(c, k, sv) == 0
    decreases c, 1, 1 + |c.args| - k
  {
    if k < |c.args| {
      OutWithoutCroaks(c, k + 1, sv);
      OutAtWithoutCroaks(c, k, sv);
    }
  }

  lemma {:induction false} OutAtWithoutCroaks(c: Call, k: nat, sv: Sv)
    requires NeverCroaks(c) && k < |c.args|
    ensures OutEffectAt(c, k) == Effect(PopsAt(c, k), []) && PostLeak(c, k, sv) == 0
    decreases c, 1, 0
  {
    NeverCroaksAt(c, k);
    var a := c.args[k];
    ClosureArms(a.ty.code);
    if PostRuns(a) {
      CodeWithoutCroaks(a.after, |a.after|, sv);
    }
  }

  /** A call in which nothing croaks takes one keeper off for every empty list and loses no reference. */
  lemma {:induction false} CallWithoutCroaks(c: Call, sv: Sv)
    requires NeverCroaks(c)
    ensures CallEffect(c) == Effect(EmptyResults(c), []) && CallLeak(c, sv) == 0
    decreases c, 2
  {
    InWithoutCroaks(c, |c.args|, sv);
    CodeWithoutCroaks(c.callbacks, |c.callbacks|, sv);
    OutWithoutCroaks(c, 0, sv);
    PopsAnswerPushes(c, 0);
    if FinishRuns(c) {
      CodeWithoutCroaks(c.finish, |c.finish|, sv);
    }
    AddUp(InEffect(c, 0, |c.args|), |Pushed(c, |c.args|)|, EmptyIn(c, |c.args|), EmptyCode(c.callbacks, |c.callbacks|),
          Pops(c, 0), EmptyFinish(c), EmptyResults(c));
    assert FinishEffect(c) == Effect(EmptyFinish(c), []);
  }

  /** All that was pushed is popped again, and the rest adds up. */
  lemma {:induction false} AddUp(e: Effect, pushed: nat, before: nat, callbacks: nat, pops: nat, finish: nat,
                                 total: nat)
    requires |e.push| <= pushed <= pops && e.drop + pushed == before + |e.push|
    requires total + pushed == before + callbacks + pops + finish
    ensures Then(Then(Then(e, Effect(callbacks, [])), Effect(pops, [])), Effect(finish, [])) == Effect(total, [])
  {
  }

  /** So, without croaks, the call leaves the stack as it found it if and only if no handler returned
      the empty list, or the stack was empty; and then every reference count is what it was. */
  lemma {:induction false} KeeperStackWithoutCroaks(p: Platform, c: Call, w: World, sv: Sv)
    requires NeverCroaks(c)
    ensures var t := RunCall(p, c, w).world.now;
            && t.keepers == Drop(w.now.keepers, EmptyResults(c))
            && (t.keepers == w.now.keepers <==> EmptyResults(c) == 0 || w.now.keepers == [])
            && (EmptyResults(c) == 0 ==> Count(t.count, sv) == Count(w.now.count, sv))
  {
    RunCallKeepers(p, c, w, sv);
    CallWithoutCroaks(c, sv);
    DropIs(w.now.keepers, EmptyResults(c));
    assert Act(CallEffect(c), w.now.keepers) == Drop(w.now.keepers, EmptyResults(c));
  }

  // ---- Runs without empty lists ----

  /** Custom arguments among j to k - 1. */
  function Customs(c: Call, j: nat, k: nat): nat
    requires j <= k <= |c.args|
  {
    if j == k then 0 else Customs(c, j, k - 1) + (if IsCustom(c.args[k - 1].ty.code) then 1 else 0)
  }

  lemma {:induction false} CustomsFrom(c: Call, j: nat, k: nat)
    requires j < k <= |c.args|
    ensures Customs(c, j, k) == (if IsCustom(c.args[j].ty.code) then 1 else 0) + Customs(c, j + 1, k)
  {
    if j + 1 < k {
      CustomsFrom(c, j, k - 1);
    }
  }

  lemma {:induction false} EmptyInFrom(c: Call, k: nat)
    requires k < |c.args|
    ensures EmptyInAt(c, k) <= EmptyIn(c, |c.args|)
  {
    EmptyInUpTo(c, k, |c.args|);
  }

  lemma {:induction false} EmptyInUpTo(c: Call, k: nat, n: nat)
    requires k < n <= |c.args|
    ensures EmptyInAt(c, k) <= EmptyIn(c, n)
  {
    if k + 1 < n {
      EmptyInUpTo(c, k, n - 1);
    }
  }

  lemma {:induction false} EmptyOutFrom(c: Call, j: nat, k: nat)
    requires j <= k < |c.args|
    ensures EmptyOutAt(c, k) <= EmptyOut(c, j)
    decreases k - j
  {
    if j < k {
      EmptyOutFrom(c, j + 1, k);
    }
  }

  lemma {:induction false} NoEmptyAt(c: Call, k: nat)
    requires EmptyResults(c) == 0 && k < |c.args|
    ensures EmptyInAt(c, k) == 0 && EmptyOutAt(c, k) == 0
  {
    EmptyInFrom(c, k);
    EmptyOutFrom(c, 0, k);
  }

  lemma {:induction false} CodeWithoutEmpty(code: seq<Action>, n: nat)
    requires n <= |code| && EmptyCode(code, n) == 0
    ensures CodeEffect(code, n).drop == 0
    decreases code, 0, n
  {
    if n > 0 {
      CodeWithoutEmpty(code, n - 1);
      var action := code[n - 1];
      if action.Invoke? {
        assert (code decreases to action) && (action decreases to action.call);
        CallWithoutEmpty(action.call);
      }
    }
  }

  /** Nothing is dropped on the way in, and at least the values of the custom arguments are pushed. */
  lemma {:induction false} InWithoutEmpty(c: Call, j: nat, k: nat)
    requires EmptyResults(c) == 0 && j <= k <= |c.args|
    ensures InEffect(c, j, k).drop == 0
    ensures !Failed(c, k) ==> |InEffect(c, j, k).push| >= Customs(c, j, k)
    decreases c, 1, k
  {
    if j < k {
      InWithoutEmpty(c, j, k - 1);
      NoEmptyAt(c, k - 1);
      var a := c.args[k - 1];
      if ConvertRuns(a) {
        CodeWithoutEmpty(a.code, |a.code|);
      }
      assert ConvertEffect(c, k - 1).drop == 0;
      assert InEffectAt(c, k - 1).drop == 0 && |InEffectAt(c, k - 1).push| >= |PushedAt(a)|;
    }
  }

  /** On the way out nothing more than one entry per custom argument is dropped. */
  lemma {:induction false} OutWithoutEmpty(c: Call, k: nat)
    requires EmptyResults(c) == 0 && k <= |c.args|
    ensures OutEffect(c, k).drop <= Customs(c, k, |c.args|)
    decreases c, 1, |c.args| - k
  {
    if k < |c.args| {
      OutWithoutEmpty(c, k + 1);
      CustomsFrom(c, k, |c.args|);
      PostWithoutEmpty(c, k);
      assert OutEffectAt(c, k).drop <= if IsCustom(c.args[k].ty.code) then 1 else 0;
    }
  }

  lemma {:induction false} PostWithoutEmpty(c: Call, k: nat)
    requires EmptyResults(c) == 0 && k < |c.args|
    ensures PostEffect(c, k).drop == 0
    decreases c, 1, 0
  {
    NoEmptyAt(c, k);
    var a := c.args[k];
    if PostRuns(a) {
      CodeWithoutEmpty(a.after, |a.after|);
    }
  }

  lemma {:induction false} RoundWithoutEmpty(c: Call, k: nat)
    requires EmptyResults(c) == 0 && k <= |c.args| && !Failed(c, |c.args|)
    ensures RoundEffect(c, k, k).drop == 0
    decreases c, 1, |c.args| + 1
  {
    InWithoutEmpty(c, k, |c.args|);
    CodeWithoutEmpty(c.callbacks, |c.callbacks|);
    OutWithoutEmpty(c, k);
  }

  /** A call in which no handler returns the empty list takes nothing off the stack it found, croak
      what may: croaks only pile keepers up. */
  lemma {:induction false} CallWithoutEmpty(c: Call)
    requires EmptyResults(c) == 0
    ensures CallEffect(c).drop == 0
    decreases c, 2
  {
    InWithoutEmpty(c, 0, |c.args|);
    if !Failed(c, |c.args|) {
      RoundWithoutEmpty(c, 0);
      if FinishRuns(c) {
        CodeWithoutEmpty(c.finish, |c.finish|);
      }
    }
  }
}
